/** Block identifiers, their hexadecimal text, and the result map of GetBlocks
    (consensus/types.go, consensus/service.go). */
module BlockIds {
  import opened Common

  type BlockId = seq<Byte>

  const NULL_ID: BlockId := []

  predicate AllZero(bytes: seq<Byte>) {
    forall i :: 0 <= i < |bytes| ==> bytes[i] == 0
  }

  method IsSliceOfZeroes(bytes: seq<Byte>) returns (zero: bool)
    ensures zero <==> AllZero(bytes)
  {
    for i := 0 to |bytes|
      invariant AllZero(bytes[..i])
    {
      if bytes[i] != 0 {
        return false;
      }
    }
    assert bytes[..|bytes|] == bytes;
    return true;
  }

  /** NewBlockIdFromBytes: a slice of zeroes, of any length, is the null id. */
  function FromBytes(bytes: seq<Byte>): BlockId {
    if AllZero(bytes) then NULL_ID else bytes
  }

  method NewBlockIdFromBytes(bytes: seq<Byte>) returns (id: BlockId)
    ensures id == FromBytes(bytes)
    ensures id == if forall i :: 0 <= i < |bytes| ==> bytes[i] == 0 then [] else bytes
  {
    var zero := IsSliceOfZeroes(bytes);
    id := if zero then NULL_ID else bytes;
  }

  /** AsBytes; Go's nil slice and the empty slice are the same bytes. */
  function AsBytes(id: BlockId): seq<Byte> {
    if id == NULL_ID then [] else id
  }

  predicate Canonical(id: BlockId) {
    id == NULL_ID || !AllZero(id)
  }

  /** Going through bytes canonicalises: the result is canonical, canonical ids
      are exactly the fixed points, and a second pass changes nothing. */
  lemma CanonicalIsFixedPoint(bytes: seq<Byte>)
    ensures Canonical(FromBytes(bytes))
    ensures FromBytes(AsBytes(bytes)) == bytes <==> Canonical(bytes)
    ensures FromBytes(AsBytes(FromBytes(bytes))) == FromBytes(bytes)
  {
  }

  // ---- Hexadecimal text (section 8 of RFC 4648) --------------------------

  function HexDigit(n: nat): (c: char)
    requires n < 16
  {
    "0123456789abcdef"[n]
  }

  /** The value of a hex digit of either case. */
  function HexValue(c: char): (v: Option<nat>)
    ensures v.Some? ==> v.value < 16
  {
    if '0' <= c <= '9' then Some((c - '0') as nat)
    else if 'a' <= c <= 'f' then Some((c - 'a') as nat + 10)
    else if 'A' <= c <= 'F' then Some((c - 'A') as nat + 10)
    else None
  }

  /** BlockId.String: two lower-case digits a byte. */
  function ToHex(bytes: seq<Byte>): (text: string) {
    if bytes == [] then "" else [HexDigit(bytes[0] / 16), HexDigit(bytes[0] % 16)] + ToHex(bytes[1..])
  }

  /** hex.DecodeString with the error dropped: the bytes before the first fault. */
  function FromHex(text: string): (bytes: seq<Byte>) {
    if |text| < 2 || HexValue(text[0]).None? || HexValue(text[1]).None? then []
    else [HexValue(text[0]).value * 16 + HexValue(text[1]).value] + FromHex(text[2..])
  }

  function FromText(text: string): BlockId {
    FromBytes(FromHex(text))
  }

  /** The hex digits are these, and have these values. */
  lemma HexValues(c: char)
    ensures HexValue(c).Some? ==>
              var n := HexValue(c).value; c == "0123456789abcdef"[n] || c == "0123456789ABCDEF"[n]
    ensures HexValue(c).None? ==> c !in "0123456789abcdef" && c !in "0123456789ABCDEF"
  {
  }

  lemma HexDigitValue(n: nat)
    requires n < 16
    ensures HexValue(HexDigit(n)) == Some(n)
  {
  }

  lemma {:induction false} HexRoundTrip(bytes: seq<Byte>)
    ensures FromHex(ToHex(bytes)) == bytes
    ensures |ToHex(bytes)| == 2 * |bytes|
  {
    if bytes != [] {
      HexRoundTrip(bytes[1..]);
      HexDigitValue(bytes[0] / 16);
      HexDigitValue(bytes[0] % 16);
      assert ToHex(bytes)[2..] == ToHex(bytes[1..]);
    }
  }

  /** The text of an id, digit by digit: two lower-case digits a byte, the high one first. */
  lemma {:induction false} HexDigits(bytes: seq<Byte>, i: nat)
    requires i < |bytes|
    ensures |ToHex(bytes)| == 2 * |bytes|
    ensures ToHex(bytes)[2 * i] == "0123456789abcdef"[bytes[i] / 16]
    ensures ToHex(bytes)[2 * i + 1] == "0123456789abcdef"[bytes[i] % 16]
  {
    HexRoundTrip(bytes);
    if i > 0 {
      HexDigits(bytes[1..], i - 1);
    }
  }

  ghost predicate IsHexPair(text: string, i: nat) {
    2 * i + 1 < |text| && HexValue(text[2 * i]).Some? && HexValue(text[2 * i + 1]).Some?
  }

  /** Decoding any text gives a byte for every leading pair of hex digits, of either case,
      the high digit first. */
  lemma {:induction false} HexDecodes(text: string, i: nat)
    requires i < |FromHex(text)|
    ensures IsHexPair(text, i)
    ensures FromHex(text)[i] == HexValue(text[2 * i]).value * 16 + HexValue(text[2 * i + 1]).value
  {
    if i > 0 {
      HexDecodes(text[2..], i - 1);
    }
  }

  /** It stops only at a pair that is none. */
  lemma {:induction false} HexStops(text: string)
    ensures !IsHexPair(text, |FromHex(text)|)
  {
    if IsHexPair(text, 0) {
      HexStops(text[2..]);
    }
  }

  /** Text round-trips exactly the canonical ids. */
  lemma TextRoundTrip(id: BlockId)
    ensures FromText(ToHex(id)) == id <==> Canonical(id)
  {
    HexRoundTrip(id);
  }

  // ---- Blocks ------------------------------------------------------------

  /** ConsensusBlock as the validator sends it. */
  datatype BlockProto = BlockProto(
    blockId: seq<Byte>, previousId: seq<Byte>, signerId: seq<Byte>, blockNum: nat,
    payload: seq<Byte>, summary: seq<Byte>)

  datatype Block = Block(
    blockId: BlockId, previousId: BlockId, signerId: seq<Byte>, blockNum: nat,
    payload: seq<Byte>, summary: seq<Byte>)

  function FromProto(p: BlockProto): Block {
    Block(FromBytes(p.blockId), FromBytes(p.previousId), FromBytes(p.signerId), p.blockNum, p.payload, p.summary)
  }

  /** Every field is that of the message, but an id of nothing but zeroes, of whatever
      length, is the null id: so a genesis block has no previous block. */
  lemma BlockHasFieldsOfProto(p: BlockProto)
    ensures var b := FromProto(p);
            && b.blockId == (if AllZero(p.blockId) then [] else p.blockId)
            && b.previousId == (if AllZero(p.previousId) then [] else p.previousId)
            && b.signerId == (if AllZero(p.signerId) then [] else p.signerId)
            && b.blockNum == p.blockNum && b.payload == p.payload && b.summary == p.summary
    ensures AllZero(p.previousId) <==> FromProto(p).previousId == NULL_ID
  {
  }

  method NewBlockFromProto(p: BlockProto) returns (b: Block)
    ensures b == FromProto(p)
    ensures b.blockId == (if AllZero(p.blockId) then [] else p.blockId)
    ensures b.previousId == (if AllZero(p.previousId) then [] else p.previousId)
    ensures b.signerId == (if AllZero(p.signerId) then [] else p.signerId)
    ensures b.blockNum == p.blockNum && b.payload == p.payload && b.summary == p.summary
  {
    var id := NewBlockIdFromBytes(p.blockId);
    var previous := NewBlockIdFromBytes(p.previousId);
    var signer := NewBlockIdFromBytes(p.signerId);
    b := Block(id, previous, signer, p.blockNum, p.payload, p.summary);
  }

  ghost predicate IsLastWithId(response: seq<BlockProto>, id: BlockId, i: int) {
    && 0 <= i < |response| && FromProto(response[i]).blockId == id
    && forall j :: i < j < |response| ==> FromProto(response[j]).blockId != id
  }

  /** The block a response holds under `id`: the last one with that id. */
  ghost function LastWithId(response: seq<BlockProto>, id: BlockId): (b: Option<Block>)
    ensures b.Some? ==> b.value.blockId == id
    ensures b.None? ==> forall i :: 0 <= i < |response| ==> FromProto(response[i]).blockId != id
  {
    if response == [] then None
    else
      var n := |response| - 1;
      if FromProto(response[n]).blockId == id then Some(FromProto(response[n]))
      else LastWithId(response[..n], id)
  }

  lemma {:induction false} LastWithIdIsLast(response: seq<BlockProto>, id: BlockId) returns (i: nat)
    requires LastWithId(response, id).Some?
    ensures IsLastWithId(response, id, i) && FromProto(response[i]) == LastWithId(response, id).value
    decreases |response|
  {
    i := |response| - 1;
    if FromProto(response[i]).blockId != id {
      var n := i;
      i := LastWithIdIsLast(response[..n], id);
      assert forall j :: 0 <= j < n ==> response[..n][j] == response[j];
    }
  }

  /** The tail of GetBlocks: the keys are exactly the ids in the response, and
      the block under a key has that key as its own id. */
  method CollectBlocks(response: seq<BlockProto>) returns (results: map<BlockId, Block>)
    ensures forall id :: id in results <==> LastWithId(response, id).Some?
    ensures forall id :: id in results ==> results[id].blockId == id && Some(results[id]) == LastWithId(response, id)
    ensures forall id :: id in results ==>
              exists i :: IsLastWithId(response, id, i) && FromProto(response[i]) == results[id]
  {
    results := map[];
    for i := 0 to |response|
      invariant forall id :: id in results <==> LastWithId(response[..i], id).Some?
      invariant forall id :: id in results ==> Some(results[id]) == LastWithId(response[..i], id)
    {
      var id := NewBlockIdFromBytes(response[i].blockId);
      var block := NewBlockFromProto(response[i]);
      results := results[id := block];
      assert response[..i + 1][..i] == response[..i];
    }
    assert response[..|response|] == response;
    CollectedAreLast(response, results);
  }

  lemma CollectedAreLast(response: seq<BlockProto>, results: map<BlockId, Block>)
    requires forall id :: id in results ==> Some(results[id]) == LastWithId(response, id)
    ensures forall id :: id in results ==>
              exists i :: IsLastWithId(response, id, i) && FromProto(response[i]) == results[id]
  {
    forall id | id in results
      ensures exists i :: IsLastWithId(response, id, i) && FromProto(response[i]) == results[id]
    {
      var i := LastWithIdIsLast(response, id);
    }
  }

  /** devmodeService.getBlock against a validator that returns the block whose
      raw id it was asked for: on a canonical id that block is found. */
  method GetBlock(store: map<seq<Byte>, BlockProto>, id: BlockId) returns (b: Option<Block>)
    requires forall raw :: raw in store ==> store[raw].blockId == raw
    ensures AsBytes(id) !in store ==> b == None
    ensures Canonical(id) && AsBytes(id) in store ==> b == Some(FromProto(store[AsBytes(id)]))
    ensures b.Some? ==> b.value.blockId == id
  {
    if AsBytes(id) !in store {
      return None;  // UNKNOWN_BLOCK, on which getBlock panics
    }
    var response := [store[AsBytes(id)]];
    var results := CollectBlocks(response);
    assert FromProto(response[0]).blockId == FromBytes(AsBytes(id));
    if id in results {
      b := Some(results[id]);
    } else {
      b := None;  // a nil Block
    }
  }
}

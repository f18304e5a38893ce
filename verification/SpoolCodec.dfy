/** The binary container of one record (src/runtime/spool.rs): magic, identity,
    priority, timestamp, contract, payload and a 32-byte checksum. SHA-256 is any
    function from byte strings to 32 bytes. */
module SpoolCodec {
  import opened Outcomes
  import opened Bytes
  import opened SpoolNames

  const MAGIC: seq<byte> := [83, 65, 82, 77, 71, 83, 80, 79, 79, 76, 1]
  const MAX_CONTRACT_BYTES := 128
  const CONTAINER_OVERHEAD := |MAGIC| + 16 + 1 + 8 + 2 + MAX_CONTRACT_BYTES + 4 + 32

  function ZeroDigest(s: seq<byte>): (d: seq<byte>)
    ensures |d| == 32
  {
    seq(32, _ => 0)
  }

  ghost predicate IsDigest(f: seq<byte> -> seq<byte>) { forall s :: |f(s)| == 32 }

  type Digest = f: seq<byte> -> seq<byte> | IsDigest(f) witness ZeroDigest

  predicate ContractByte(b: byte) {
    48 <= b <= 57 || 65 <= b <= 90 || 97 <= b <= 122 || b == 46 || b == 45 || b == 95
  }

  /** `ContractId::new` over the identifier's bytes. */
  predicate ValidContract(c: seq<byte>) {
    1 <= |c| <= MAX_CONTRACT_BYTES && forall i :: 0 <= i < |c| ==> ContractByte(c[i])
  }

  type ContractId = c: seq<byte> | ValidContract(c) witness [97]

  datatype SpoolRecord = SpoolRecord(id: RecordId, contract: ContractId, created: int, payload: seq<byte>)

  predicate I64(n: int) { -I64_LIMIT <= n < I64_LIMIT }

  // ---------- Fields ----------

  function HexDigit(v: nat): (c: char)
    requires v < 16
    ensures IsLowerHex(c)
  {
    if v < 10 then (v + '0' as int) as char else (v - 10 + 'a' as int) as char
  }

  function HexValue(c: char): (v: nat)
    requires IsLowerHex(c)
    ensures v < 16
  {
    if c <= '9' then c as int - '0' as int else c as int - 'a' as int + 10
  }

  function IdBytes(id: RecordId): (s: seq<byte>)
    ensures |s| == 16
  {
    seq(16, i requires 0 <= i < 16 => 16 * HexValue(id[2 * i]) + HexValue(id[2 * i + 1]))
  }

  function IdText(s: seq<byte>): (id: RecordId)
    requires |s| == 16
  {
    seq(32, i requires 0 <= i < 32 => HexDigit(if i % 2 == 0 then s[i / 2] / 16 else s[i / 2] % 16))
  }

  lemma HexRoundTrips(v: nat, c: char)
    requires v < 16 && IsLowerHex(c)
    ensures HexValue(HexDigit(v)) == v && HexDigit(HexValue(c)) == c
  {
  }

  lemma HexPair(high: char, low: char)
    requires IsLowerHex(high) && IsLowerHex(low)
    ensures var b := 16 * HexValue(high) + HexValue(low);
            b < 256 && HexDigit(b / 16) == high && HexDigit(b % 16) == low
  {
    HexRoundTrips(0, high);
    HexRoundTrips(0, low);
  }

  lemma IdTextOfBytes(id: RecordId)
    ensures IdText(IdBytes(id)) == id
  {
    hide HexDigit, HexValue;
    var bytes := IdBytes(id);
    forall i | 0 <= i < 32 ensures IdText(bytes)[i] == id[i] {
      HexPair(id[2 * (i / 2)], id[2 * (i / 2) + 1]);
      assert i == 2 * (i / 2) + i % 2;
    }
  }

  lemma IdBytesOfText(s: seq<byte>)
    requires |s| == 16
    ensures IdBytes(IdText(s)) == s
  {
    forall i | 0 <= i < 16 ensures IdBytes(IdText(s))[i] == s[i] {
      HexRoundTrips(s[i] / 16, '0');
      HexRoundTrips(s[i] % 16, '0');
      assert (2 * i) / 2 == i && (2 * i) % 2 == 0 && (2 * i + 1) / 2 == i && (2 * i + 1) % 2 == 1;
    }
  }

  /** Two's complement of a 64-bit signed value, most significant byte first. */
  function I64Bytes(n: int): (s: seq<byte>)
    requires I64(n)
    ensures |s| == 8
  {
    WordSizes();
    BigEndian(if n < 0 then n + 2 * I64_LIMIT else n, 8)
  }

  function I64Value(s: seq<byte>): (n: int)
    requires |s| == 8
    ensures I64(n)
  {
    WordSizes();
    var v := FromBigEndian(s);
    if v < I64_LIMIT then v else v - 2 * I64_LIMIT
  }

  lemma I64RoundTrips(n: int, s: seq<byte>)
    requires I64(n) && |s| == 8
    ensures I64Value(I64Bytes(n)) == n && I64Bytes(I64Value(s)) == s
  {
    WordSizes();
    FromBigEndianOfBigEndian(if n < 0 then n + 2 * I64_LIMIT else n, 8);
    BigEndianOfFromBigEndian(s);
  }

  // ---------- Encoding ----------

  function Content(r: SpoolRecord, priority: byte): seq<byte>
    requires I64(r.created) && |r.payload| < 0x1_0000_0000
  {
    WordSizes();
    MAGIC + (IdBytes(r.id) + ([priority] + (I64Bytes(r.created)
      + (BigEndian(|r.contract|, 2) + (r.contract + (BigEndian(|r.payload|, 4) + r.payload))))))
  }

  function Encode(r: SpoolRecord, priority: byte, sha: Digest): (bytes: Result<seq<byte>, SpoolError>)
    requires I64(r.created)
  {
    if |r.payload| >= 0x1_0000_0000 then Err(RecordTooLarge)
    else
      var content := Content(r, priority);
      Ok(content + sha(content))
  }

  // ---------- Decoding ----------

  datatype Taken = Taken(part: seq<byte>, rest: seq<byte>)

  function Take(input: seq<byte>, size: nat): (r: Result<Taken, SpoolError>)
    ensures r.Ok? ==> |r.value.part| == size && input == r.value.part + r.value.rest
    ensures r.Err? ==> r.error == InvalidRecord
  {
    if |input| < size then Err(InvalidRecord) else Ok(Taken(input[..size], input[size..]))
  }

  function DecodePayload(
    input: seq<byte>, name: Name, max: nat, id: RecordId, priority: byte, created: int, contract: ContractId)
    : (r: Result<SpoolRecord, SpoolError>)
    ensures r.Err? ==> r.error in {InvalidRecord, RecordTooLarge}
  {
    var length :- Take(input, 4);
    if FromBigEndian(length.part) > max || |length.rest| != FromBigEndian(length.part)
      || id != name.id || priority != name.priority || created != name.created
    then Err(InvalidRecord)
    else if |length.rest| > max then Err(RecordTooLarge)
    else Ok(SpoolRecord(id, contract, created, length.rest))
  }

  function DecodeContract(input: seq<byte>): (r: Result<Taken, SpoolError>)
    ensures r.Err? ==> r.error in {InvalidRecord, InvalidContract}
  {
    var length :- Take(input, 2);
    if FromBigEndian(length.part) > MAX_CONTRACT_BYTES then Err(InvalidContract)
    else
      var contract :- Take(length.rest, FromBigEndian(length.part));
      if ValidContract(contract.part) then Ok(contract) else Err(InvalidContract)
  }

  function DecodeContent(content: seq<byte>, name: Name, max: nat): (r: Result<SpoolRecord, SpoolError>)
    ensures r.Err? ==> r.error in {InvalidRecord, InvalidContract, RecordTooLarge}
  {
    var magic :- Take(content, |MAGIC|);
    if magic.part != MAGIC then Err(InvalidRecord)
    else
      var id :- Take(magic.rest, 16);
      var priority :- Take(id.rest, 1);
      var created :- Take(priority.rest, 8);
      var contract :- DecodeContract(created.rest);
      if !ValidContract(contract.part) then Err(InvalidContract)
      else
        DecodePayload(
          contract.rest, name, max, IdText(id.part), priority.part[0], I64Value(created.part), contract.part)
  }

  /** Every failure is one that `next` answers with quarantine. */
  function Decode(bytes: seq<byte>, name: Name, max: nat, sha: Digest): (r: Result<SpoolRecord, SpoolError>)
    ensures r.Err? ==> r.error in {InvalidRecord, InvalidContract, RecordTooLarge}
  {
    if |bytes| < 32 then Err(InvalidRecord)
    else
      var content := bytes[..|bytes| - 32];
      if sha(content) != bytes[|bytes| - 32..] then Err(InvalidRecord) else DecodeContent(content, name, max)
  }

  // ---------- Decoding inverts encoding, and accepts nothing else ----------

  /** The name under which a record is stored agrees with its content. */
  predicate Matches(r: SpoolRecord, name: Name) { r.id == name.id && r.created == name.created }

  /** `bytes` is the container of `r` as stored under `name`. */
  ghost predicate IsContainer(bytes: seq<byte>, r: SpoolRecord, name: Name, max: nat, sha: Digest) {
    && Matches(r, name) && |r.payload| <= max && I64(r.created)
    && Encode(r, name.priority, sha) == Ok(bytes)
  }

  lemma TakeFront(part: seq<byte>, rest: seq<byte>)
    ensures Take(part + rest, |part|) == Ok(Taken(part, rest))
  {
    assert (part + rest)[..|part|] == part && (part + rest)[|part|..] == rest;
  }

  lemma DecodeContractOfEncoded(contract: ContractId, rest: seq<byte>)
    ensures |contract| < Pow(256, 2)
    ensures DecodeContract(BigEndian(|contract|, 2) + (contract + rest)) == Ok(Taken(contract, rest))
  {
    WordSizes();
    FromBigEndianOfBigEndian(|contract|, 2);
    TakeFront(BigEndian(|contract|, 2), contract + rest);
    TakeFront(contract, rest);
  }

  lemma DecodePayloadOfEncoded(r: SpoolRecord, name: Name, max: nat)
    requires Matches(r, name) && |r.payload| <= max && |r.payload| < 0x1_0000_0000
    ensures |r.payload| < Pow(256, 4)
    ensures DecodePayload(BigEndian(|r.payload|, 4) + r.payload, name, max, r.id, name.priority, r.created, r.contract)
         == Ok(r)
  {
    WordSizes();
    FromBigEndianOfBigEndian(|r.payload|, 4);
    TakeFront(BigEndian(|r.payload|, 4), r.payload);
  }

  lemma DecodeContentOfEncoded(r: SpoolRecord, name: Name, max: nat)
    requires I64(r.created) && Matches(r, name) && |r.payload| <= max && |r.payload| < 0x1_0000_0000
    ensures DecodeContent(Content(r, name.priority), name, max) == Ok(r)
  {
    WordSizes();
    var payload := BigEndian(|r.payload|, 4) + r.payload;
    var contract := BigEndian(|r.contract|, 2) + (r.contract + payload);
    var created := I64Bytes(r.created) + contract;
    var priority := [name.priority] + created;
    var id := IdBytes(r.id) + priority;
    assert Content(r, name.priority) == MAGIC + id;
    TakeFront(MAGIC, id);
    TakeFront(IdBytes(r.id), priority);
    TakeFront([name.priority], created);
    TakeFront(I64Bytes(r.created), contract);
    DecodeContractOfEncoded(r.contract, payload);
    DecodePayloadOfEncoded(r, name, max);
    IdTextOfBytes(r.id);
    I64RoundTrips(r.created, I64Bytes(r.created));
  }

  lemma DecodeContractIsCanonical(input: seq<byte>, taken: Taken)
    requires DecodeContract(input) == Ok(taken)
    ensures ValidContract(taken.part) && |taken.part| < Pow(256, 2)
    ensures input == BigEndian(|taken.part|, 2) + (taken.part + taken.rest)
  {
    WordSizes();
    var length := Take(input, 2).value;
    BigEndianOfFromBigEndian(length.part);
  }

  lemma DecodePayloadIsCanonical(input: seq<byte>, name: Name, max: nat, id: RecordId, priority: byte, created: int,
                                 contract: ContractId, r: SpoolRecord)
    requires DecodePayload(input, name, max, id, priority, created, contract) == Ok(r)
    ensures r.id == id == name.id && priority == name.priority && r.created == created == name.created
    ensures r.contract == contract
    ensures |r.payload| <= max && |r.payload| < Pow(256, 4)
    ensures input == BigEndian(|r.payload|, 4) + r.payload
  {
    BigEndianOfFromBigEndian(Take(input, 4).value.part);
  }

  lemma DecodeContentIsCanonical(content: seq<byte>, name: Name, max: nat, r: SpoolRecord)
    requires DecodeContent(content, name, max) == Ok(r)
    ensures I64(r.created) && Matches(r, name) && |r.payload| <= max && |r.payload| < 0x1_0000_0000
    ensures content == Content(r, name.priority)
  {
    WordSizes();
    var magic := Take(content, |MAGIC|).value;
    var id := Take(magic.rest, 16).value;
    var priority := Take(id.rest, 1).value;
    var created := Take(priority.rest, 8).value;
    var contract := DecodeContract(created.rest).value;
    DecodeContractIsCanonical(created.rest, contract);
    DecodePayloadIsCanonical(
      contract.rest, name, max, IdText(id.part), priority.part[0], I64Value(created.part), contract.part, r);
    IdBytesOfText(id.part);
    I64RoundTrips(r.created, created.part);
    assert priority.part == [name.priority];
  }

  /** `decode` undoes `encode`. */
  lemma DecodeOfEncode(r: SpoolRecord, name: Name, max: nat, sha: Digest)
    requires I64(r.created) && Matches(r, name) && |r.payload| <= max && |r.payload| < 0x1_0000_0000
    ensures Encode(r, name.priority, sha).Ok?
    ensures Decode(Encode(r, name.priority, sha).value, name, max, sha) == Ok(r)
  {
    hide DecodeContent, Content;
    var content := Content(r, name.priority);
    var bytes := content + sha(content);
    assert |sha(content)| == 32;
    assert bytes[..|bytes| - 32] == content && bytes[|bytes| - 32..] == sha(content);
    DecodeContentOfEncoded(r, name, max);
  }

  /** Bytes that `decode` accepts are the encoding of what it returns. */
  lemma EncodeOfDecode(bytes: seq<byte>, name: Name, max: nat, sha: Digest, r: SpoolRecord)
    requires Decode(bytes, name, max, sha) == Ok(r)
    ensures IsContainer(bytes, r, name, max, sha)
  {
    hide DecodeContent, Content;
    var content := bytes[..|bytes| - 32];
    DecodeContentIsCanonical(content, name, max, r);
    assert bytes == content + bytes[|bytes| - 32..];
  }

  /** `decode` succeeds with `r` on exactly one byte string: the encoding of `r`
      under a name with its identity, timestamp and priority. */
  lemma DecodeExact(bytes: seq<byte>, name: Name, max: nat, sha: Digest, r: SpoolRecord)
    ensures Decode(bytes, name, max, sha) == Ok(r) <==> IsContainer(bytes, r, name, max, sha)
  {
    hide Decode, Content;
    if Decode(bytes, name, max, sha) == Ok(r) {
      EncodeOfDecode(bytes, name, max, sha, r);
    }
    if IsContainer(bytes, r, name, max, sha) {
      DecodeOfEncode(r, name, max, sha);
    }
  }

  // ---------- What a container looks like ----------

  /** The last 32 bytes are the digest of everything in front of them. */
  predicate Sealed(bytes: seq<byte>, sha: Digest) {
    |bytes| >= 32 && bytes[|bytes| - 32..] == sha(bytes[..|bytes| - 32])
  }

  /** `decode` accepts only sealed bytes. */
  lemma AcceptedIsSealed(bytes: seq<byte>, name: Name, max: nat, sha: Digest)
    requires Decode(bytes, name, max, sha).Ok?
    ensures Sealed(bytes, sha)
  {
    hide DecodeContent;
  }

  /** Changing accepted bytes in front of the checksum and keeping the checksum is
      noticed, unless the change is a collision of the digest. */
  lemma ChangeIsNoticed(bytes: seq<byte>, changed: seq<byte>, name: Name, other: Name, max: nat, sha: Digest)
    requires Decode(bytes, name, max, sha).Ok? && changed != bytes && |changed| >= 32
    requires changed[|changed| - 32..] == bytes[|bytes| - 32..]
    ensures Decode(changed, other, max, sha).Ok? ==>
              && bytes[..|bytes| - 32] != changed[..|changed| - 32]
              && sha(bytes[..|bytes| - 32]) == sha(changed[..|changed| - 32])
  {
    hide DecodeContent;
    AcceptedIsSealed(bytes, name, max, sha);
    if Decode(changed, other, max, sha).Ok? {
      AcceptedIsSealed(changed, other, max, sha);
      assert bytes == bytes[..|bytes| - 32] + bytes[|bytes| - 32..];
      assert changed == changed[..|changed| - 32] + changed[|changed| - 32..];
    }
  }

  /** Which bytes of a container hold what. */
  lemma ContainerLayout(r: SpoolRecord, priority: byte, sha: Digest, bytes: seq<byte>)
    requires I64(r.created) && Encode(r, priority, sha) == Ok(bytes)
    ensures |r.contract| < Pow(256, 2) && |r.payload| < Pow(256, 4)
    ensures r.created % 0x1_0000_0000_0000_0000 < Pow(256, 8)
    ensures Sealed(bytes, sha) && |bytes| == 74 + |r.contract| + |r.payload|
    ensures var c, p, content := |r.contract|, |r.payload|, bytes[..|bytes| - 32];
            && content[..11] == [83, 65, 82, 77, 71, 83, 80, 79, 79, 76, 1]
            && (forall i :: 0 <= i < 16 ==> HexDigits(content[11..27][i], r.id[2 * i], r.id[2 * i + 1]))
            && content[27] == priority
            && content[28..36] == BigEndian(r.created % 0x1_0000_0000_0000_0000, 8)
            && content[36..38] == BigEndian(c, 2) && content[38..38 + c] == r.contract
            && content[38 + c..42 + c] == BigEndian(p, 4) && content[42 + c..] == r.payload
  {
    hide BigEndian, IdBytes, HexDigits;
    WordSizes();
    var content := Content(r, priority);
    assert |sha(content)| == 32;
    assert bytes[..|bytes| - 32] == content && bytes[|bytes| - 32..] == sha(content);
    ContentLayout(r, priority);
    IdDigits(r.id);
  }

  /** The two hexadecimal digits of an octet. */
  predicate HexDigits(b: byte, high: char, low: char) {
    "0123456789abcdef"[b / 16] == high && "0123456789abcdef"[b % 16] == low
  }

  lemma ContentLayout(r: SpoolRecord, priority: byte)
    requires I64(r.created) && |r.payload| < 0x1_0000_0000
    ensures |r.contract| < Pow(256, 2) && |r.payload| < Pow(256, 4)
    ensures var c, p, content := |r.contract|, |r.payload|, Content(r, priority);
            && |content| == 42 + c + p
            && content[..11] == MAGIC && content[11..27] == IdBytes(r.id) && content[27] == priority
            && content[28..36] == I64Bytes(r.created) && content[36..38] == BigEndian(c, 2)
            && content[38..38 + c] == r.contract && content[38 + c..42 + c] == BigEndian(p, 4)
            && content[42 + c..] == r.payload
  {
    hide BigEndian, IdBytes, I64Bytes;
    WordSizes();
    var c, content := |r.contract|, Content(r, priority);
    var payload := BigEndian(|r.payload|, 4) + r.payload;
    var contract := BigEndian(c, 2) + (r.contract + payload);
    var created := I64Bytes(r.created) + contract;
    FieldAt(content, 0, MAGIC, IdBytes(r.id) + ([priority] + created));
    FieldAt(content, 11, IdBytes(r.id), [priority] + created);
    FieldAt(content, 27, [priority], created);
    FieldAt(content, 28, I64Bytes(r.created), contract);
    FieldAt(content, 36, BigEndian(c, 2), r.contract + payload);
    FieldAt(content, 38, r.contract, payload);
    FieldAt(content, 38 + c, BigEndian(|r.payload|, 4), r.payload);
  }

  lemma FieldAt(content: seq<byte>, at: nat, field: seq<byte>, rest: seq<byte>)
    requires at <= |content| && content[at..] == field + rest
    ensures |content| == at + |field| + |rest|
    ensures content[at..at + |field|] == field && content[at + |field|..] == rest
  {
    assert content[at..][..|field|] == field && content[at..][|field|..] == rest;
  }

  lemma IdDigits(id: RecordId)
    ensures forall i :: 0 <= i < 16 ==> HexDigits(IdBytes(id)[i], id[2 * i], id[2 * i + 1])
  {
    forall i | 0 <= i < 16 ensures HexDigits(IdBytes(id)[i], id[2 * i], id[2 * i + 1]) {
      HexPair(id[2 * i], id[2 * i + 1]);
      HexAlphabet(IdBytes(id)[i] / 16);
      HexAlphabet(IdBytes(id)[i] % 16);
    }
  }

  lemma HexAlphabet(v: nat)
    requires v < 16
    ensures "0123456789abcdef"[v] == HexDigit(v)
  {
  }

  /** The physical size of a container. */
  lemma EncodedSize(r: SpoolRecord, priority: byte, sha: Digest)
    requires I64(r.created) && |r.payload| < 0x1_0000_0000
    ensures var bytes := Encode(r, priority, sha);
            bytes.Ok? && |bytes.value| == CONTAINER_OVERHEAD - MAX_CONTRACT_BYTES + |r.contract| + |r.payload|
    ensures |Encode(r, priority, sha).value| <= |r.payload| + CONTAINER_OVERHEAD
  {
    WordSizes();
    assert |sha(Content(r, priority))| == 32;
  }
}

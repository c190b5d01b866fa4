/** Commit receipts, their validation and the byte string behind the operation
    fingerprint (src/managed_catalog.rs: `validate_receipt`, `receipt_fingerprint`).
    SHA-256 is taken as injective, so a fingerprint stands for its input. */
module Receipts {
  import opened Outcomes
  import opened ByteStrings
  import opened Names
  import opened Records

  type Md5 = d: Bytes | |d| == 16 witness seq(16, _ => 0)

  datatype ContentDigest = Unknown | Md5Digest(md5: Md5) | Sha256Digest(sha256: Digest)

  datatype Receipt = Receipt(
    ns: Uuid, parent: Uuid, name: Bytes, file: Uuid, expected: Option<U64>, operation: Uuid, requestEpoch: U64,
    copy: Uuid, serial: Bytes, pool: Option<Uuid>, ownerEpoch: U64, volume: Uuid, generation: U64, scanId: Uuid,
    fileUid: U64, size: U64, content: ContentDigest, metadata: Option<Digest>)

  /** The stored description of one copy of one file version. */
  datatype PhysicalCopy = PhysicalCopy(
    version: U64, requestEpoch: U64, volume: Uuid, generation: U64, scanId: Uuid, fileUid: U64, size: U64,
    content: ContentDigest)

  /** `encode_copy`: the description a receipt publishes. */
  function CopyOf(r: Receipt, version: U64): PhysicalCopy {
    PhysicalCopy(version, r.requestEpoch, r.volume, r.generation, r.scanId, r.fileUid, r.size, r.content)
  }

  function Expected(r: Receipt): U64 {
    if r.expected.Some? then r.expected.value else 0
  }

  function ReceiptScan(r: Receipt): Scan {
    Scan(r.generation, r.scanId)
  }

  /** `validate_receipt` */
  predicate ValidReceipt(r: Receipt) {
    ValidName(r.name) && ValidSerial(r.serial) && r.volume != NIL && ValidScan(ReceiptScan(r)) &&
    r.ns != NIL && r.file != NIL && r.operation != NIL && r.copy != NIL && r.pool != Some(NIL) &&
    r.ownerEpoch != 0 && r.requestEpoch != 0 && r.fileUid != 0 &&
    r.expected != Some(0) && Expected(r) + 1 < U64_LIMIT
  }

  // ------------------------------------------------------------ fingerprints

  /** A variable-length field behind its 32-bit length. */
  function Counted(b: Bytes): Bytes {
    BigEndian(|b|, 4) + b
  }

  /** An optional field behind a presence byte. */
  function Optional(o: Option<Bytes>): Bytes {
    if o.Some? then [1] + o.value else [0]
  }

  function DigestTag(c: ContentDigest): Byte {
    match c
    case Unknown => 0
    case Sha256Digest(_) => 1
    case Md5Digest(_) => 2
  }

  /** The digest padded to 32 bytes. */
  function Payload(c: ContentDigest): (r: Bytes)
    ensures |r| == 32
  {
    match c
    case Unknown => Id(NIL) + Id(NIL)
    case Sha256Digest(d) => d
    case Md5Digest(d) => d + Id(NIL)
  }

  function PoolBytes(r: Receipt): Option<Bytes> {
    if r.pool.Some? then Some(Id(r.pool.value)) else None
  }

  function MediaPart(r: Receipt): Bytes {
    Id(r.volume) + (EncodeU64(r.generation) + (Id(r.scanId) + (EncodeU64(r.fileUid) + (EncodeU64(r.size) +
      ([DigestTag(r.content)] + (Payload(r.content) + Optional(r.metadata)))))))
  }

  function FilePart(r: Receipt): Bytes {
    Id(r.file) + (EncodeU64(Expected(r)) + (Id(r.copy) + (Counted(r.serial) + (Optional(PoolBytes(r)) + MediaPart(r)))))
  }

  /** The bytes `receipt_fingerprint` hashes, in the order it feeds them. */
  function Fingerprint(r: Receipt): Bytes {
    Id(r.ns) + (EncodeU64(r.requestEpoch) + (Id(r.parent) + (Counted(r.name) + FilePart(r))))
  }

  /** All fields but the executing owner's epoch and the operation identity. */
  predicate SameOperation(a: Receipt, b: Receipt) {
    a == b.(ownerEpoch := a.ownerEpoch, operation := a.operation)
  }

  lemma CountedSplits(a: Bytes, b: Bytes, x: Bytes, y: Bytes)
    requires |a| < U32_LIMIT && |b| < U32_LIMIT && Counted(a) + x == Counted(b) + y
    ensures a == b && x == y
  {
    PowerTable();
    var la, lb := BigEndian(|a|, 4), BigEndian(|b|, 4);
    assert Counted(a) + x == la + (a + x) && Counted(b) + y == lb + (b + y);
    SplitEqual(la, lb, a + x, b + y);
    NumberOfBigEndian(|a|, 4);
    NumberOfBigEndian(|b|, 4);
    SplitEqual(a, b, x, y);
  }

  lemma OptionalSplits(a: Option<Bytes>, b: Option<Bytes>, width: nat, x: Bytes, y: Bytes)
    requires a.Some? ==> |a.value| == width
    requires b.Some? ==> |b.value| == width
    requires Optional(a) + x == Optional(b) + y
    ensures a == b && x == y
  {
    assert (Optional(a) + x)[0] == (Optional(b) + y)[0];
    if a.Some? {
      assert Optional(a) + x == [1] + (a.value + x) && Optional(b) + y == [1] + (b.value + y);
      SplitEqual([1], [1], a.value + x, b.value + y);
      SplitEqual(a.value, b.value, x, y);
    } else {
      SplitEqual([0], [0], x, y);
    }
  }

  lemma DigestSplits(a: ContentDigest, b: ContentDigest, x: Bytes, y: Bytes)
    requires [DigestTag(a)] + (Payload(a) + x) == [DigestTag(b)] + (Payload(b) + y)
    ensures a == b && x == y
  {
    SplitEqual([DigestTag(a)], [DigestTag(b)], Payload(a) + x, Payload(b) + y);
    assert [DigestTag(a)][0] == [DigestTag(b)][0];
    SplitEqual(Payload(a), Payload(b), x, y);
    if a.Md5Digest? {
      SplitEqual(a.md5, b.md5, Id(NIL), Id(NIL));
    }
  }

  lemma MediaPartIsInjective(a: Receipt, b: Receipt)
    requires MediaPart(a) == MediaPart(b)
    ensures a.volume == b.volume && a.generation == b.generation && a.scanId == b.scanId &&
            a.fileUid == b.fileUid && a.size == b.size && a.content == b.content && a.metadata == b.metadata
  {
    var da, db := [DigestTag(a.content)] + (Payload(a.content) + Optional(a.metadata)),
                  [DigestTag(b.content)] + (Payload(b.content) + Optional(b.metadata));
    var sa, sb := EncodeU64(a.size) + da, EncodeU64(b.size) + db;
    var ua, ub := EncodeU64(a.fileUid) + sa, EncodeU64(b.fileUid) + sb;
    IdSplits(a.volume, b.volume, EncodeU64(a.generation) + (Id(a.scanId) + ua), EncodeU64(b.generation) + (Id(b.scanId) + ub));
    U64Splits(a.generation, b.generation, Id(a.scanId) + ua, Id(b.scanId) + ub);
    IdSplits(a.scanId, b.scanId, ua, ub);
    U64Splits(a.fileUid, b.fileUid, sa, sb);
    U64Splits(a.size, b.size, da, db);
    DigestSplits(a.content, b.content, Optional(a.metadata), Optional(b.metadata));
    assert Optional(a.metadata) + [] == Optional(a.metadata) && Optional(b.metadata) + [] == Optional(b.metadata);
    OptionalSplits(a.metadata, b.metadata, 32, [], []);
  }

  lemma FilePartIsInjective(a: Receipt, b: Receipt)
    requires |a.serial| <= 128 && |b.serial| <= 128 && FilePart(a) == FilePart(b)
    ensures a.file == b.file && Expected(a) == Expected(b) && a.copy == b.copy && a.serial == b.serial &&
            a.pool == b.pool && MediaPart(a) == MediaPart(b)
  {
    var pa, pb := Optional(PoolBytes(a)) + MediaPart(a), Optional(PoolBytes(b)) + MediaPart(b);
    var ca, cb := Id(a.copy) + (Counted(a.serial) + pa), Id(b.copy) + (Counted(b.serial) + pb);
    IdSplits(a.file, b.file, EncodeU64(Expected(a)) + ca, EncodeU64(Expected(b)) + cb);
    U64Splits(Expected(a), Expected(b), ca, cb);
    IdSplits(a.copy, b.copy, Counted(a.serial) + pa, Counted(b.serial) + pb);
    CountedSplits(a.serial, b.serial, pa, pb);
    OptionalSplits(PoolBytes(a), PoolBytes(b), 16, MediaPart(a), MediaPart(b));
    if a.pool.Some? {
      IdSplits(a.pool.value, b.pool.value, [], []);
    }
  }

  /** On validated receipts the fingerprint input determines every field except
      the owner epoch and the operation identity, and depends on no other. */
  lemma FingerprintIsInjective(a: Receipt, b: Receipt)
    requires ValidReceipt(a) && ValidReceipt(b)
    ensures Fingerprint(a) == Fingerprint(b) <==> SameOperation(a, b)
  {
    if Fingerprint(a) == Fingerprint(b) {
      var na, nb := Counted(a.name) + FilePart(a), Counted(b.name) + FilePart(b);
      IdSplits(a.ns, b.ns, EncodeU64(a.requestEpoch) + (Id(a.parent) + na), EncodeU64(b.requestEpoch) + (Id(b.parent) + nb));
      U64Splits(a.requestEpoch, b.requestEpoch, Id(a.parent) + na, Id(b.parent) + nb);
      IdSplits(a.parent, b.parent, na, nb);
      CountedSplits(a.name, b.name, FilePart(a), FilePart(b));
      FilePartIsInjective(a, b);
      MediaPartIsInjective(a, b);
      assert a.expected == b.expected;
    }
    if SameOperation(a, b) {
      assert FilePart(a) == FilePart(b);
    }
  }

  // ------------------------------------------------------------ copy records

  /** The digest without padding. */
  function Compact(c: ContentDigest): Bytes {
    match c
    case Unknown => []
    case Sha256Digest(d) => d
    case Md5Digest(d) => d
  }

  /** A copy that stems from a file request and has no media mapping of its own. */
  function OriginPart(c: PhysicalCopy): Bytes {
    [1] + (EncodeU64(c.requestEpoch) + [0])
  }

  /** The bytes of a stored copy record, "R1" first. */
  function EncodeCopy(c: PhysicalCopy): Bytes {
    [0x52, 0x31] + (EncodeU64(c.version) + (Id(c.volume) + (EncodeU64(c.generation) + (Id(c.scanId) + (EncodeU64(c.fileUid) +
      (EncodeU64(c.size) + ([DigestTag(c.content)] + (Compact(c.content) + OriginPart(c)))))))))
  }

  lemma CompactSplits(a: ContentDigest, b: ContentDigest, x: Bytes, y: Bytes)
    requires [DigestTag(a)] + (Compact(a) + x) == [DigestTag(b)] + (Compact(b) + y)
    ensures a == b && x == y
  {
    SplitEqual([DigestTag(a)], [DigestTag(b)], Compact(a) + x, Compact(b) + y);
    assert [DigestTag(a)][0] == [DigestTag(b)][0];
    SplitEqual(Compact(a), Compact(b), x, y);
  }

  /** The record determines the copy, so what is hashed about a copy is the copy. */
  lemma CopyEncodingIsInjective(a: PhysicalCopy, b: PhysicalCopy)
    requires EncodeCopy(a) == EncodeCopy(b)
    ensures a == b
  {
    var da, db := [DigestTag(a.content)] + (Compact(a.content) + OriginPart(a)), [DigestTag(b.content)] + (Compact(b.content) + OriginPart(b));
    var sa, sb := EncodeU64(a.size) + da, EncodeU64(b.size) + db;
    var ua, ub := EncodeU64(a.fileUid) + sa, EncodeU64(b.fileUid) + sb;
    var ga, gb := EncodeU64(a.generation) + (Id(a.scanId) + ua), EncodeU64(b.generation) + (Id(b.scanId) + ub);
    SplitEqual([0x52, 0x31], [0x52, 0x31], EncodeU64(a.version) + (Id(a.volume) + ga), EncodeU64(b.version) + (Id(b.volume) + gb));
    U64Splits(a.version, b.version, Id(a.volume) + ga, Id(b.volume) + gb);
    IdSplits(a.volume, b.volume, ga, gb);
    U64Splits(a.generation, b.generation, Id(a.scanId) + ua, Id(b.scanId) + ub);
    IdSplits(a.scanId, b.scanId, ua, ub);
    U64Splits(a.fileUid, b.fileUid, sa, sb);
    U64Splits(a.size, b.size, da, db);
    CompactSplits(a.content, b.content, OriginPart(a), OriginPart(b));
    SplitEqual([1], [1], EncodeU64(a.requestEpoch) + [0], EncodeU64(b.requestEpoch) + [0]);
    U64Splits(a.requestEpoch, b.requestEpoch, [0], [0]);
  }
}

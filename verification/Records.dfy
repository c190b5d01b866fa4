/** Fixed-layout record codecs of the managed catalog (src/managed_catalog.rs:
    ready pointer, scan manifest, file head and node records). Each codec is a
    bijection between the valid values and the byte strings its decoder accepts,
    so comparing stored bytes is the same as comparing values. */
module Records {
  import opened Outcomes
  import opened ByteStrings
  import opened Names

  type Digest = d: Bytes | |d| == 32 witness seq(32, _ => 0)

  // ------------------------------------------------------------- serials

  predicate Continuation(b: Byte) {
    0x80 <= b <= 0xbf
  }

  /** Well-formed UTF-8 (section 4 of RFC 3629). */
  predicate ValidUtf8(b: Bytes) {
    if b == [] then true
    else if b[0] <= 0x7f then ValidUtf8(b[1..])
    else if 0xc2 <= b[0] <= 0xdf && |b| >= 2 then
      Continuation(b[1]) && ValidUtf8(b[2..])
    else if 0xe0 <= b[0] <= 0xef && |b| >= 3 then
      Continuation(b[1]) && Continuation(b[2]) && (b[0] == 0xe0 ==> b[1] >= 0xa0) &&
      (b[0] == 0xed ==> b[1] <= 0x9f) && ValidUtf8(b[3..])
    else if 0xf0 <= b[0] <= 0xf4 && |b| >= 4 then
      Continuation(b[1]) && Continuation(b[2]) && Continuation(b[3]) && (b[0] == 0xf0 ==> b[1] >= 0x90) &&
      (b[0] == 0xf4 ==> b[1] <= 0x8f) && ValidUtf8(b[4..])
    else false
  }

  /** `validate_serial` on the bytes of a text serial number. */
  predicate ValidSerial(serial: Bytes) {
    serial != [] && |serial| <= 128 && 0 !in serial && ValidUtf8(serial)
  }

  // -------------------------------------------------- ready pointer, manifest

  datatype Scan = Scan(generation: U64, id: Uuid)

  datatype ScanState = Building | Ready | Retired | Verifying | Verified | Rejected

  datatype Pointer = Pointer(scan: Scan, serial: Bytes)

  datatype Manifest = Manifest(scan: Scan, serial: Bytes, state: ScanState)

  predicate ValidScan(scan: Scan) {
    scan.generation != 0 && scan.id != NIL
  }

  predicate ValidPointer(p: Pointer) {
    ValidScan(p.scan) && ValidSerial(p.serial)
  }

  function EncodePointer(p: Pointer): Bytes {
    EncodeU64(p.scan.generation) + Id(p.scan.id) + BigEndian(|p.serial|, 2) + p.serial
  }

  /** `decode_ready_volume` */
  function DecodePointer(b: Bytes): Result<Pointer> {
    if |b| < 26 then Err(Corrupt)
    else
      var length := Number(b[24..26]);
      if length == 0 || length > 128 || |b| != 26 + length then Err(Corrupt)
      else if !ValidSerial(b[26..]) then Err(Corrupt)
      else
        var scan := Scan(DecodeU64(b[..8]), DecodeId(b[8..24]));
        if scan.generation == 0 || scan.id == NIL then Err(Corrupt)
        else Ok(Pointer(scan, b[26..]))
  }

  lemma PointerParts(p: Pointer)
    ensures var b := EncodePointer(p);
            b[..8] == EncodeU64(p.scan.generation) && b[8..24] == Id(p.scan.id) &&
            b[24..26] == BigEndian(|p.serial|, 2) && b[26..] == p.serial && |b| == 26 + |p.serial|
  {
    var g, id, l := EncodeU64(p.scan.generation), Id(p.scan.id), BigEndian(|p.serial|, 2);
    var b := EncodePointer(p);
    assert b == g + (id + (l + p.serial));
    assert b[8..] == id + (l + p.serial);
  }

  /** The ready-pointer codec is canonical in both directions. */
  lemma PointerCodecIsCanonical(b: Bytes, p: Pointer)
    ensures DecodePointer(b) == Ok(p) <==> ValidPointer(p) && b == EncodePointer(p)
  {
    PowerTable();
    PointerParts(p);
    if ValidPointer(p) {
      U64RoundTrip(p.scan.generation);
      IdRoundTrip(p.scan.id);
      NumberOfBigEndian(|p.serial|, 2);
    }
    if DecodePointer(b) == Ok(p) {
      U64Canonical(b[..8]);
      IdCanonical(b[8..24]);
      BigEndianOfNumber(b[24..26]);
      assert b == b[..8] + b[8..24] + b[24..26] + b[26..];
    }
  }

  function StateByte(state: ScanState): Byte {
    match state
    case Building => 0
    case Ready => 1
    case Retired => 2
    case Verifying => 3
    case Verified => 4
    case Rejected => 5
  }

  function EncodeManifest(m: Manifest): Bytes {
    EncodePointer(Pointer(m.scan, m.serial)) + [StateByte(m.state)]
  }

  function DecodeState(b: Byte): Result<ScanState> {
    match b
    case 0 => Ok(Building)
    case 1 => Ok(Ready)
    case 2 => Ok(Retired)
    case 3 => Ok(Verifying)
    case 4 => Ok(Verified)
    case 5 => Ok(Rejected)
    case _ => Err(Corrupt)
  }

  /** `decode_scan_manifest` */
  function DecodeManifest(b: Bytes): Result<Manifest> {
    if b == [] then Err(Corrupt)
    else
      match DecodeState(b[|b| - 1])
      case Err(error) => Err(error)
      case Ok(state) =>
        match DecodePointer(b[..|b| - 1])
        case Err(error) => Err(error)
        case Ok(p) => Ok(Manifest(p.scan, p.serial, state))
  }

  predicate ValidManifest(m: Manifest) {
    ValidScan(m.scan) && ValidSerial(m.serial)
  }

  /** The scan-manifest codec is canonical in both directions. */
  lemma ManifestCodecIsCanonical(b: Bytes, m: Manifest)
    ensures DecodeManifest(b) == Ok(m) <==> ValidManifest(m) && b == EncodeManifest(m)
  {
    var p := Pointer(m.scan, m.serial);
    if b != [] {
      assert b == b[..|b| - 1] + [b[|b| - 1]];
      PointerCodecIsCanonical(b[..|b| - 1], p);
    }
    var e := EncodeManifest(m);
    assert e[..|e| - 1] == EncodePointer(p);
    PointerCodecIsCanonical(EncodePointer(p), p);
  }

  // -------------------------------------------------------------- file heads

  datatype FileHead = FileHead(version: U64, size: U64, copy: Uuid)

  predicate ValidHead(h: FileHead) {
    h.version != 0 && h.copy != NIL
  }

  function EncodeHead(h: FileHead): Bytes {
    EncodeU64(h.version) + EncodeU64(h.size) + Id(h.copy)
  }

  /** `decode_head` */
  function DecodeHead(b: Bytes): Result<FileHead> {
    if |b| != 32 || DecodeU64(b[..8]) == 0 then Err(Corrupt)
    else if DecodeId(b[16..]) == NIL then Err(Corrupt)
    else Ok(FileHead(DecodeU64(b[..8]), DecodeU64(b[8..16]), DecodeId(b[16..])))
  }

  /** The head codec is canonical in both directions. */
  lemma HeadCodecIsCanonical(b: Bytes, h: FileHead)
    ensures DecodeHead(b) == Ok(h) <==> ValidHead(h) && b == EncodeHead(h)
  {
    var e := EncodeHead(h);
    assert e[..8] == EncodeU64(h.version) && e[8..16] == EncodeU64(h.size) && e[16..] == Id(h.copy);
    U64RoundTrip(h.version);
    U64RoundTrip(h.size);
    IdRoundTrip(h.copy);
    if |b| == 32 {
      U64Canonical(b[..8]);
      U64Canonical(b[8..16]);
      IdCanonical(b[16..]);
      assert b == b[..8] + b[8..16] + b[16..];
    }
  }

  // ------------------------------------------------------------ node records

  const INLINE_LIMIT: nat := 64000
  const CHUNK_SIZE: nat := 64000
  const MAX_REPRESENTABLE: nat := 65535 * CHUNK_SIZE

  datatype NodeKind = Directory | File

  /** Attributes are carried as their exact encoded bytes, or by reference to
      a chunked object. */
  datatype Attributes = Complete(encoded: Bytes) | External(digest: Digest, length: nat, chunks: nat)

  datatype Node = Node(kind: NodeKind, version: Option<U64>, parent: Uuid, name: Bytes, attributes: Option<Attributes>)

  /** The attribute decoder and hash are other components: which byte strings
      it accepts, which of those carry a symlink, and the digest of each. */
  datatype AttributeRules = AttributeRules(accepts: Bytes -> bool, symlink: Bytes -> bool, digest: Bytes -> Digest)

  function ChunkCount(length: nat): nat {
    (length + CHUNK_SIZE - 1) / CHUNK_SIZE
  }

  /** What `NodeAttributes::manifest` refers to. */
  function Reference(rules: AttributeRules, encoded: Bytes): Attributes {
    External(rules.digest(encoded), |encoded|, ChunkCount(|encoded|))
  }

  function EncodeReference(digest: Digest, length: nat, chunks: nat): Bytes {
    [3] + digest + BigEndian(length, 4) + BigEndian(chunks, 2)
  }

  function EncodeAttributes(rules: AttributeRules, attributes: Option<Attributes>): Bytes {
    match attributes
    case None => [0]
    case Some(Complete(encoded)) =>
      if |encoded| <= INLINE_LIMIT then [1] + encoded
      else
        var r := Reference(rules, encoded);
        EncodeReference(r.digest, r.length, r.chunks)
    case Some(External(digest, length, chunks)) => EncodeReference(digest, length, chunks)
  }

  function KindByte(kind: NodeKind): Byte {
    if kind.Directory? then 0 else 1
  }

  /** The fixed 29 bytes of a node record. */
  function EncodeHeader(kind: Byte, revision: U64, parent: Uuid, length: nat): (r: Bytes)
    ensures |r| == 29
  {
    [78, 1, kind] + EncodeU64(revision) + Id(parent) + BigEndian(length, 2)
  }

  function Revision(n: Node): U64 {
    if n.version.Some? then n.version.value else 0
  }

  function EncodeNode(rules: AttributeRules, n: Node): Bytes {
    EncodeHeader(KindByte(n.kind), Revision(n), n.parent, |n.name|) + (n.name + EncodeAttributes(rules, n.attributes))
  }

  predicate ValidReference(length: nat, chunks: nat) {
    INLINE_LIMIT < length <= MAX_REPRESENTABLE && chunks == ChunkCount(length)
  }

  /** `b` is the attribute part of a node record. */
  function DecodeAttributes(rules: AttributeRules, b: Bytes): Result<Option<Attributes>>
    requires b != []
  {
    if b[0] == 0 && |b| == 1 then Ok(None)
    else if b[0] == 1 && |b| - 1 <= INLINE_LIMIT then
      if rules.accepts(b[1..]) then Ok(Some(Complete(b[1..]))) else Err(Corrupt)
    else if b[0] == 3 && |b| == 39 then
      var length, chunks := Number(b[33..37]), Number(b[37..39]);
      if ValidReference(length, chunks) then Ok(Some(External(b[1..33], length, chunks))) else Err(Corrupt)
    else Err(Corrupt)
  }

  function DecodeVersion(kind: Byte, revision: U64): Result<Option<U64>> {
    if kind == 0 && revision >= 1 then Ok(Some(revision))
    else if kind == 1 && revision == 0 then Ok(None)
    else Err(Corrupt)
  }

  predicate SymlinkDirectory(rules: AttributeRules, kind: NodeKind, attributes: Option<Attributes>) {
    kind.Directory? && attributes.Some? && attributes.value.Complete? && rules.symlink(attributes.value.encoded)
  }

  datatype Header = Header(kind: NodeKind, version: Option<U64>, parent: Uuid, length: nat)

  /** The fixed part of `decode_node`. */
  function DecodeHeader(h: Bytes): Result<Header>
    requires |h| == 29
  {
    if h[..2] != [78, 1] then Err(Corrupt)
    else
      match DecodeVersion(h[2], DecodeU64(h[3..11]))
      case Err(error) => Err(error)
      case Ok(version) => Ok(Header(if h[2] == 0 then Directory else File, version, DecodeId(h[11..27]), Number(h[27..])))
  }

  /** The variable part of `decode_node`: name, attributes and the link check. */
  function DecodeBody(rules: AttributeRules, h: Header, body: Bytes): Result<Node> {
    if h.length > MAX_NAME || |body| < 1 + h.length then Err(Corrupt)
    else if h.length != 0 && !ValidName(body[..h.length]) then Err(Corrupt)
    else
      match DecodeAttributes(rules, body[h.length..])
      case Err(error) => Err(error)
      case Ok(attributes) =>
        if SymlinkDirectory(rules, h.kind, attributes) then Err(Corrupt)
        else Ok(Node(h.kind, h.version, h.parent, body[..h.length], attributes))
  }

  /** `decode_node` */
  function DecodeNode(rules: AttributeRules, b: Bytes): Result<Node> {
    if |b| < 30 then Err(Corrupt)
    else
      match DecodeHeader(b[..29])
      case Err(error) => Err(error)
      case Ok(h) => DecodeBody(rules, h, b[29..])
  }

  predicate StoredAttributes(rules: AttributeRules, attributes: Option<Attributes>) {
    match attributes
    case None => true
    case Some(Complete(encoded)) => |encoded| <= INLINE_LIMIT && rules.accepts(encoded)
    case Some(External(_, length, chunks)) => ValidReference(length, chunks)
  }

  /** The node values that records can hold. */
  predicate StoredNode(rules: AttributeRules, n: Node) {
    (n.kind.Directory? ==> n.version.Some? && n.version.value >= 1) &&
    (n.kind.File? ==> n.version.None?) &&
    (n.name == [] || ValidName(n.name)) &&
    StoredAttributes(rules, n.attributes) &&
    !SymlinkDirectory(rules, n.kind, n.attributes)
  }

  lemma ReferenceFits(length: nat)
    requires length <= MAX_REPRESENTABLE
    ensures length < U32_LIMIT && ChunkCount(length) < U16_LIMIT
  {
    assert MAX_REPRESENTABLE == 4194240000;
  }

  lemma ReferenceParts(digest: Digest, length: nat, chunks: nat)
    ensures var b := EncodeReference(digest, length, chunks);
            |b| == 39 && b[0] == 3 && b[1..33] == digest && b[33..37] == BigEndian(length, 4) &&
            b[37..39] == BigEndian(chunks, 2)
  {
    var b := EncodeReference(digest, length, chunks);
    var l, c := BigEndian(length, 4), BigEndian(chunks, 2);
    assert b == [3] + (digest + (l + c));
    assert b[33..] == l + c;
  }

  lemma ReferenceDecodes(rules: AttributeRules, digest: Digest, length: nat, chunks: nat)
    requires ValidReference(length, chunks)
    ensures DecodeAttributes(rules, EncodeReference(digest, length, chunks)) == Ok(Some(External(digest, length, chunks)))
  {
    PowerTable();
    ReferenceFits(length);
    ReferenceParts(digest, length, chunks);
    NumberOfBigEndian(length, 4);
    NumberOfBigEndian(chunks, 2);
  }

  lemma AttributesCodecIsCanonical(rules: AttributeRules, b: Bytes, a: Option<Attributes>)
    requires b != []
    ensures DecodeAttributes(rules, b) == Ok(a) <==> StoredAttributes(rules, a) && b == EncodeAttributes(rules, a)
  {
    if StoredAttributes(rules, a) && b == EncodeAttributes(rules, a) {
      match a {
        case None =>
        case Some(Complete(encoded)) => assert b[1..] == encoded;
        case Some(External(digest, length, chunks)) => ReferenceDecodes(rules, digest, length, chunks);
      }
    }
    if DecodeAttributes(rules, b) == Ok(a) && a.Some? {
      match a.value {
        case Complete(encoded) => assert b == [b[0]] + b[1..];
        case External(digest, length, chunks) =>
          BigEndianOfNumber(b[33..37]);
          BigEndianOfNumber(b[37..39]);
          assert b == [b[0]] + b[1..33] + b[33..37] + b[37..39];
      }
    }
  }

  lemma HeaderParts(kind: Byte, revision: U64, parent: Uuid, length: nat)
    ensures var h := EncodeHeader(kind, revision, parent, length);
            h[..2] == [78, 1] && h[2] == kind && h[3..11] == EncodeU64(revision) && h[11..27] == Id(parent) &&
            h[27..] == BigEndian(length, 2)
  {
    var h := EncodeHeader(kind, revision, parent, length);
    assert h[..2] == [78, 1];
    assert h[3..11] == EncodeU64(revision);
    assert h[11..27] == Id(parent);
  }

  lemma HeaderDecodes(n: Node)
    requires |n.name| <= MAX_NAME && DecodeVersion(KindByte(n.kind), Revision(n)) == Ok(n.version)
    ensures DecodeHeader(EncodeHeader(KindByte(n.kind), Revision(n), n.parent, |n.name|)) ==
            Ok(Header(n.kind, n.version, n.parent, |n.name|))
  {
    hide BigEndian, Number, EncodeHeader, ValidName;
    PowerTable();
    HeaderParts(KindByte(n.kind), Revision(n), n.parent, |n.name|);
    U64RoundTrip(Revision(n));
    IdRoundTrip(n.parent);
    NumberOfBigEndian(|n.name|, 2);
  }

  lemma HeaderReencodes(b: Bytes, h: Header)
    requires |b| == 29 && DecodeHeader(b) == Ok(h)
    ensures DecodeVersion(KindByte(h.kind), if h.version.Some? then h.version.value else 0) == Ok(h.version)
    ensures b == EncodeHeader(KindByte(h.kind), if h.version.Some? then h.version.value else 0, h.parent, h.length)
  {
    hide BigEndian, Number, ValidName;
    U64Canonical(b[3..11]);
    IdCanonical(b[11..27]);
    BigEndianOfNumber(b[27..]);
    assert b == b[..2] + [b[2]] + b[3..11] + b[11..27] + b[27..];
  }

  /** Decoding a written node gives it back with its attributes as stored. */
  lemma NodeDecodes(rules: AttributeRules, n: Node, stored: Option<Attributes>)
    requires StoredNode(rules, n.(attributes := stored))
    requires DecodeAttributes(rules, EncodeAttributes(rules, n.attributes)) == Ok(stored)
    ensures DecodeNode(rules, EncodeNode(rules, n)) == Ok(n.(attributes := stored))
  {
    hide BigEndian, Number, EncodeHeader, DecodeHeader, DecodeAttributes;
    HeaderDecodes(n);
    var b := EncodeNode(rules, n);
    var body := n.name + EncodeAttributes(rules, n.attributes);
    assert b[..29] == EncodeHeader(KindByte(n.kind), Revision(n), n.parent, |n.name|) && b[29..] == body;
    assert body[..|n.name|] == n.name && body[|n.name|..] == EncodeAttributes(rules, n.attributes);
  }

  lemma NodeReencodes(rules: AttributeRules, b: Bytes, n: Node)
    requires DecodeNode(rules, b) == Ok(n)
    ensures StoredNode(rules, n) && EncodeNode(rules, n) == b
  {
    hide BigEndian, Number, EncodeHeader, EncodeAttributes, DecodeAttributes;
    var h := DecodeHeader(b[..29]).value;
    HeaderReencodes(b[..29], h);
    var body := b[29..];
    AttributesCodecIsCanonical(rules, body[h.length..], n.attributes);
    assert body == body[..h.length] + body[h.length..];
    assert b == b[..29] + body;
  }

  /** The node codec is canonical in both directions on the values it stores. */
  lemma NodeCodecIsCanonical(rules: AttributeRules, b: Bytes, n: Node)
    ensures DecodeNode(rules, b) == Ok(n) <==> StoredNode(rules, n) && b == EncodeNode(rules, n)
  {
    if DecodeNode(rules, b) == Ok(n) {
      NodeReencodes(rules, b, n);
    }
    if StoredNode(rules, n) && b == EncodeNode(rules, n) {
      AttributesCodecIsCanonical(rules, EncodeAttributes(rules, n.attributes), n.attributes);
      NodeDecodes(rules, n, n.attributes);
    }
  }

  /** Attributes above the inline limit come back as a reference to them. */
  lemma LargeAttributesBecomeReferences(rules: AttributeRules, n: Node, encoded: Bytes)
    requires n.attributes == Some(Complete(encoded)) && INLINE_LIMIT < |encoded| <= MAX_REPRESENTABLE
    requires StoredNode(rules, n.(attributes := None))
    ensures DecodeNode(rules, EncodeNode(rules, n)) == Ok(n.(attributes := Some(Reference(rules, encoded))))
  {
    var r := Reference(rules, encoded);
    ReferenceDecodes(rules, r.digest, r.length, r.chunks);
    NodeDecodes(rules, n, Some(r));
  }
}

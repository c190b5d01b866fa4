/** The catalog's key layout (src/managed_catalog.rs, key constructors). The
    typed maps of the catalog model stand for one ordered key/value store;
    that is justified because the layout is injective over all its kinds. */
module Keys {
  import opened ByteStrings
  import opened Names

  // b"tape-rs/catalog/22/"
  const PREFIX: Bytes :=
    [116, 97, 112, 101, 45, 114, 115, 47, 99, 97, 116, 97, 108, 111, 103, 47, 50, 50, 47]

  datatype Key =
    | OwnerKey(serial: Bytes)
    | NamespaceKey(ns: Uuid)
    | WindowKey(ns: Uuid)
    | ReadyKey(volume: Uuid)
    | PendingKey(volume: Uuid)
    | ManifestKey(volume: Uuid, scan: Uuid)
    | ProgressKey(volume: Uuid, scan: Uuid)
    | RevisionKey(ns: Uuid)
    | UnavailableKey(ns: Uuid, volume: Uuid)
    | RowKey(volume: Uuid, scan: Uuid, ns: Uuid, file: Uuid, copy: Uuid)
    | ChildKey(ns: Uuid, parent: Uuid, name: Bytes)
    | NodeKey(ns: Uuid, id: Uuid)
    | HeadKey(ns: Uuid, id: Uuid)
    | CopyKey(ns: Uuid, id: Uuid, copy: Uuid)
    | OpKey(ns: Uuid, epoch: U64, id: Uuid)
    | IntentKey(ns: Uuid, epoch: U64, id: Uuid)

  /** The ASCII letter that separates the record kinds. */
  function Kind(k: Key): Byte {
    match k
    case OwnerKey(_) => 79             // O
    case NamespaceKey(_) => 83         // S
    case WindowKey(_) => 69            // E
    case ReadyKey(_) => 77             // M
    case PendingKey(_) => 81           // Q
    case ManifestKey(_, _) => 71       // G
    case ProgressKey(_, _) => 74       // J
    case RevisionKey(_) => 118         // v
    case UnavailableKey(_, _) => 87    // W
    case RowKey(_, _, _, _, _) => 86   // V
    case ChildKey(_, _, _) => 67       // C
    case NodeKey(_, _) => 78           // N
    case HeadKey(_, _) => 72           // H
    case CopyKey(_, _, _) => 82        // R
    case OpKey(_, _, _) => 80          // P
    case IntentKey(_, _, _) => 73      // I
  }

  function Tail(k: Key): Bytes {
    match k
    case OwnerKey(serial) => Escape(serial)
    case NamespaceKey(ns) => Id(ns)
    case WindowKey(ns) => Id(ns)
    case ReadyKey(volume) => Id(volume)
    case PendingKey(volume) => Id(volume)
    case ManifestKey(volume, scan) => Id(volume) + Id(scan)
    case ProgressKey(volume, scan) => Id(volume) + Id(scan)
    case RevisionKey(ns) => Id(ns)
    case UnavailableKey(ns, volume) => Id(ns) + Id(volume)
    case RowKey(volume, scan, ns, file, copy) => Id(volume) + (Id(scan) + (Id(ns) + (Id(file) + Id(copy))))
    case ChildKey(ns, parent, name) => Id(ns) + (Id(parent) + Escape(name))
    case NodeKey(ns, id) => Id(ns) + Id(id)
    case HeadKey(ns, id) => Id(ns) + Id(id)
    case CopyKey(ns, id, copy) => Id(ns) + (Id(id) + Id(copy))
    case OpKey(ns, epoch, id) => Id(ns) + (EncodeU64(epoch) + Id(id))
    case IntentKey(ns, epoch, id) => Id(ns) + (EncodeU64(epoch) + Id(id))
  }

  function Lead(kind: Byte): Bytes {
    PREFIX + [kind, 47]
  }

  function EncodeKey(k: Key): Bytes {
    Lead(Kind(k)) + Tail(k)
  }

  function ChildPrefix(ns: Uuid, parent: Uuid): Bytes {
    Lead(67) + (Id(ns) + Id(parent))
  }

  function RowPrefix(volume: Uuid, scan: Uuid): Bytes {
    Lead(86) + (Id(volume) + Id(scan))
  }

  lemma EncodedKeyParts(k: Key)
    ensures EncodeKey(k)[19] == Kind(k)
    ensures EncodeKey(k)[21..] == Tail(k)
  {
    assert |Lead(Kind(k))| == 21 && Lead(Kind(k))[19] == Kind(k);
  }

  lemma IdInjective(a: Uuid, b: Uuid)
    requires Id(a) == Id(b)
    ensures a == b
  {
    IdRoundTrip(a);
    IdRoundTrip(b);
  }

  lemma TwoIds(a: Uuid, b: Uuid, x: Uuid, y: Uuid)
    requires Id(a) + Id(x) == Id(b) + Id(y)
    ensures a == b && x == y
  {
    IdSplits(a, b, Id(x), Id(y));
    IdInjective(x, y);
  }

  /** Distinct records never share a key. */
  lemma KeysAreInjective(a: Key, b: Key)
    requires EncodeKey(a) == EncodeKey(b)
    ensures a == b
  {
    EncodedKeyParts(a);
    EncodedKeyParts(b);
    assert Tail(a) == Tail(b);
    match a
    case OwnerKey(serial) =>
      NameEncodingIsBijection(Tail(a), serial);
      NameEncodingIsBijection(Tail(b), b.serial);
    case NamespaceKey(ns) => IdInjective(ns, b.ns);
    case WindowKey(ns) => IdInjective(ns, b.ns);
    case ReadyKey(volume) => IdInjective(volume, b.volume);
    case PendingKey(volume) => IdInjective(volume, b.volume);
    case ManifestKey(volume, scan) => TwoIds(volume, b.volume, scan, b.scan);
    case ProgressKey(volume, scan) => TwoIds(volume, b.volume, scan, b.scan);
    case RevisionKey(ns) => IdInjective(ns, b.ns);
    case UnavailableKey(ns, volume) => TwoIds(ns, b.ns, volume, b.volume);
    case RowKey(volume, scan, ns, file, copy) =>
      IdSplits(volume, b.volume, Id(scan) + (Id(ns) + (Id(file) + Id(copy))), Id(b.scan) + (Id(b.ns) + (Id(b.file) + Id(b.copy))));
      IdSplits(scan, b.scan, Id(ns) + (Id(file) + Id(copy)), Id(b.ns) + (Id(b.file) + Id(b.copy)));
      IdSplits(ns, b.ns, Id(file) + Id(copy), Id(b.file) + Id(b.copy));
      TwoIds(file, b.file, copy, b.copy);
    case ChildKey(ns, parent, name) =>
      IdSplits(ns, b.ns, Id(parent) + Escape(name), Id(b.parent) + Escape(b.name));
      IdSplits(parent, b.parent, Escape(name), Escape(b.name));
      NameEncodingIsBijection(Escape(name), name);
      NameEncodingIsBijection(Escape(name), b.name);
    case NodeKey(ns, id) => TwoIds(ns, b.ns, id, b.id);
    case HeadKey(ns, id) => TwoIds(ns, b.ns, id, b.id);
    case CopyKey(ns, id, copy) =>
      IdSplits(ns, b.ns, Id(id) + Id(copy), Id(b.id) + Id(b.copy));
      TwoIds(id, b.id, copy, b.copy);
    case OpKey(ns, epoch, id) =>
      IdSplits(ns, b.ns, EncodeU64(epoch) + Id(id), EncodeU64(b.epoch) + Id(b.id));
      U64Splits(epoch, b.epoch, Id(id), Id(b.id));
      IdInjective(id, b.id);
    case IntentKey(ns, epoch, id) =>
      IdSplits(ns, b.ns, EncodeU64(epoch) + Id(id), EncodeU64(b.epoch) + Id(b.id));
      U64Splits(epoch, b.epoch, Id(id), Id(b.id));
      IdInjective(id, b.id);
  }

  lemma PrefixOfEncodedKey(kind: Byte, ids: Bytes, k: Key)
    ensures Lead(kind) + ids <= EncodeKey(k) <==> kind == Kind(k) && ids <= Tail(k)
  {
    EncodedKeyParts(k);
    var p, e := Lead(kind) + ids, EncodeKey(k);
    assert |Lead(kind)| == 21 && p[19] == kind;
    if p <= e {
      assert e[19] == p[19];
      assert ids == p[21..] && p[21..] == e[21..][..|ids|];
    }
  }

  lemma TwoIdPrefix(a: Uuid, b: Uuid, x: Uuid, y: Uuid, rest: Bytes)
    ensures Id(a) + Id(b) <= Id(x) + (Id(y) + rest) <==> a == x && b == y
  {
    var whole := Id(x) + (Id(y) + rest);
    assert whole == (Id(x) + Id(y)) + rest;
    assert whole[..32] == Id(x) + Id(y);
    if Id(a) + Id(b) <= whole {
      assert Id(a) + Id(b) == whole[..32];
      TwoIds(a, x, b, y);
    }
  }

  /** The row range of a scan holds that scan's rows and no other record. */
  lemma RowPrefixSelectsScan(volume: Uuid, scan: Uuid, k: Key)
    ensures RowPrefix(volume, scan) <= EncodeKey(k) <==>
              k.RowKey? && k.volume == volume && k.scan == scan
  {
    PrefixOfEncodedKey(86, Id(volume) + Id(scan), k);
    if k.RowKey? {
      TwoIdPrefix(volume, scan, k.volume, k.scan, Id(k.ns) + (Id(k.file) + Id(k.copy)));
    }
  }

  /** The child range of a directory holds that directory's entries and no other record. */
  lemma ChildPrefixSelectsDirectory(ns: Uuid, parent: Uuid, k: Key)
    ensures ChildPrefix(ns, parent) <= EncodeKey(k) <==>
              k.ChildKey? && k.ns == ns && k.parent == parent
  {
    PrefixOfEncodedKey(67, Id(ns) + Id(parent), k);
    if k.ChildKey? {
      TwoIdPrefix(ns, parent, k.ns, k.parent, Escape(k.name));
    }
  }
}

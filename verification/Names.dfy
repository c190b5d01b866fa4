/** Order-preserving escaped name components and prefix ranges
    (src/managed_catalog.rs: `append_component`, `decode_name`, `prefix_end`). */
module Names {
  import opened Outcomes
  import opened ByteStrings

  const MAX_NAME: nat := 255

  /** `validate_name`: a usable directory entry name. */
  predicate ValidName(name: Bytes) {
    name != [] && |name| <= MAX_NAME && name != [46] && name != [46, 46] &&
    47 !in name && 0 !in name
  }

  // ------------------------------------------------------------- escaping

  /** One byte of a component: NUL is followed by 0xff. */
  function EscapeByte(b: Byte): Bytes {
    if b == 0 then [0, 255] else [b]
  }

  /** The escaped component, closed by two NULs. */
  function Escape(name: Bytes): (r: Bytes)
    ensures |name| + 2 <= |r| <= 2 * |name| + 2
  {
    if name == [] then [0, 0] else EscapeByte(name[0]) + Escape(name[1..])
  }

  method AppendComponent(key: Bytes, name: Bytes) returns (out: Bytes)
    ensures out == key + Escape(name)
  {
    out := key;
    var i := 0;
    while i < |name|
      invariant 0 <= i <= |name|
      invariant out + Escape(name[i..]) == key + Escape(name)
    {
      assert name[i..][1..] == name[i + 1..];
      assert out + (EscapeByte(name[i]) + Escape(name[i + 1..])) == (out + EscapeByte(name[i])) + Escape(name[i + 1..]);
      if name[i] == 0 {
        out := out + [0, 255];
      } else {
        out := out + [name[i]];
      }
      i := i + 1;
    }
    out := out + [0, 0];
  }

  // ------------------------------------------------------------ unescaping

  function Prepend(front: Bytes, rest: Result<Bytes>): Result<Bytes> {
    match rest
    case Ok(name) => Ok(front + name)
    case Err(error) => Err(error)
  }

  /** The component a whole byte string encodes; anything else is corrupt. */
  function Unescape(b: Bytes): Result<Bytes> {
    if b == [] then Err(Corrupt)
    else if b[0] != 0 then Prepend([b[0]], Unescape(b[1..]))
    else if |b| >= 2 && b[1] == 255 then Prepend([0], Unescape(b[2..]))
    else if b == [0, 0] then Ok([])
    else Err(Corrupt)
  }

  lemma PrependTwice(a: Bytes, b: Bytes, rest: Result<Bytes>)
    ensures Prepend(a, Prepend(b, rest)) == Prepend(a + b, rest)
    ensures Prepend([], rest) == rest
  {
    if rest.Ok? {
      assert a + (b + rest.value) == (a + b) + rest.value;
      assert [] + rest.value == rest.value;
    }
  }

  method DecodeName(b: Bytes) returns (r: Result<Bytes>)
    ensures r == Unescape(b)
  {
    var out := [];
    var i := 0;
    PrependTwice([], [], Unescape(b));
    assert b[0..] == b;
    while i < |b|
      invariant 0 <= i <= |b|
      invariant Unescape(b) == Prepend(out, Unescape(b[i..]))
    {
      if b[i] != 0 {
        assert b[i..][1..] == b[i + 1..];
        PrependTwice(out, [b[i]], Unescape(b[i + 1..]));
        out := out + [b[i]];
        i := i + 1;
      } else if i + 1 < |b| && b[i + 1] == 255 {
        assert b[i..][2..] == b[i + 2..];
        PrependTwice(out, [0], Unescape(b[i + 2..]));
        out := out + [0];
        i := i + 2;
      } else if i + 1 < |b| && b[i + 1] == 0 && i + 2 == |b| {
        assert b[i..] == [0, 0] && out + [] == out;
        return Ok(out);
      } else {
        return Err(Corrupt);
      }
    }
    return Err(Corrupt);
  }

  /** Decoding undoes escaping for every byte string, NULs included. */
  lemma {:induction false} UnescapeEscape(name: Bytes)
    ensures Unescape(Escape(name)) == Ok(name)
  {
    if name == [] {
      assert Unescape([0, 0]) == Ok([]);
    } else {
      UnescapeEscape(name[1..]);
      var e := Escape(name);
      assert name == [name[0]] + name[1..];
      if name[0] == 0 {
        assert e[2..] == Escape(name[1..]);
      } else {
        assert e[1..] == Escape(name[1..]);
      }
    }
  }

  /** Every accepted byte string is the escape of what it decodes to. */
  lemma {:induction false} EscapeUnescape(b: Bytes)
    ensures Unescape(b).Ok? ==> Escape(Unescape(b).value) == b
  {
    if b != [] && Unescape(b).Ok? {
      if b[0] != 0 {
        EscapeUnescape(b[1..]);
        var rest := Unescape(b[1..]).value;
        assert Unescape(b).value[1..] == rest;
        assert b == [b[0]] + b[1..];
      } else if b != [0, 0] {
        EscapeUnescape(b[2..]);
        var rest := Unescape(b[2..]).value;
        assert Unescape(b).value[1..] == rest;
        assert b == [0, 255] + b[2..];
      }
    }
  }

  /** So escaping is a bijection onto the strings `decode_name` accepts. */
  lemma NameEncodingIsBijection(b: Bytes, name: Bytes)
    ensures Unescape(b) == Ok(name) <==> b == Escape(name)
  {
    UnescapeEscape(name);
    EscapeUnescape(b);
  }

  lemma EscapeHead(name: Bytes, after: Bytes)
    requires name != []
    ensures Escape(name) + after == EscapeByte(name[0]) + (Escape(name[1..]) + after)
  {
  }

  /** Only the empty name starts with the terminator. */
  lemma EscapedStart(name: Bytes, after: Bytes)
    ensures var e := Escape(name) + after; |e| >= 2 && (name == [] <==> e[0] == 0 && e[1] == 0)
  {
    if name != [] {
      assert |Escape(name[1..])| >= 2;
      EscapeHead(name, after);
    }
  }

  /** No escaped component is a prefix of another, even with bytes appended. */
  lemma {:induction false} NameEncodingIsPrefixFree(a: Bytes, b: Bytes, after: Bytes)
    requires Escape(a) <= Escape(b) + after
    ensures a == b
  {
    var ea, eb := Escape(a), Escape(b) + after;
    EscapedStart(a, []);
    EscapedStart(b, after);
    assert ea == ea + [] && ea[0] == eb[0] && ea[1] == eb[1];
    if a != [] {
      EscapeHead(a, []);
      EscapeHead(b, after);
      var head := EscapeByte(a[0]);
      var ra, rb := Escape(a[1..]), Escape(b[1..]) + after;
      assert ea == head + ra && eb == head + rb;
      assert ra == ea[|head|..] && rb == eb[|head|..];
      NameEncodingIsPrefixFree(a[1..], b[1..], after);
      assert a == [a[0]] + a[1..] && b == [b[0]] + b[1..];
    }
  }

  /** Store order of escaped names is byte order of the names. */
  lemma {:induction false} NameEncodingKeepsOrder(a: Bytes, b: Bytes)
    ensures Less(Escape(a), Escape(b)) <==> Less(a, b)
  {
    var ea, eb := Escape(a), Escape(b);
    if a == [] && b == [] {
      LessIrreflexive(ea);
    } else if a == [] {
      assert b[0] == 0 ==> eb[0] == 0 && eb[1] == 255 && ea[1..][0] == 0 && eb[1..][0] == 255;
    } else if b == [] {
      assert a[0] == 0 ==> ea[0] == 0 && ea[1] == 255 && eb[1..][0] == 0 && ea[1..][0] == 255;
    } else if a[0] == b[0] {
      var head := EscapeByte(a[0]);
      NameEncodingKeepsOrder(a[1..], b[1..]);
      LessAfterPrefix(head, Escape(a[1..]), Escape(b[1..]));
    }
  }

  /** So keys that continue after the name compare like the names, whatever follows. */
  lemma {:induction false} KeysFollowNameOrder(a: Bytes, b: Bytes, x: Bytes, y: Bytes)
    requires a != b
    ensures Less(Escape(a) + x, Escape(b) + y) <==> Less(a, b)
  {
    var ea, eb := Escape(a) + x, Escape(b) + y;
    if a == [] {
      assert b[0] == 0 ==> eb[0] == 0 && eb[1] == 255 && ea[1..][0] == 0 && eb[1..][0] == 255;
    } else if b == [] {
      assert a[0] == 0 ==> ea[0] == 0 && ea[1] == 255 && eb[1..][0] == 0 && ea[1..][0] == 255;
    } else if a[0] == b[0] {
      var head := EscapeByte(a[0]);
      assert a == [a[0]] + a[1..] && b == [b[0]] + b[1..];
      KeysFollowNameOrder(a[1..], b[1..], x, y);
      assert ea == head + (Escape(a[1..]) + x) && eb == head + (Escape(b[1..]) + y);
      LessAfterPrefix(head, Escape(a[1..]) + x, Escape(b[1..]) + y);
    }
  }

  // --------------------------------------------------------- prefix ranges

  /** The least byte string above everything that starts with `p`;
      there is none when `p` holds only 0xff bytes. */
  function PrefixEnd(p: Bytes): Option<Bytes> {
    if p == [] then None
    else
      match PrefixEnd(p[1..])
      case Some(end) => Some([p[0]] + end)
      case None => if p[0] < 255 then Some([p[0] + 1]) else None
  }

  lemma {:induction false} PrefixEndDropsLastMax(p: Bytes)
    ensures PrefixEnd(p + [255]) == PrefixEnd(p)
  {
    if p != [] {
      assert (p + [255])[1..] == p[1..] + [255];
      PrefixEndDropsLastMax(p[1..]);
    }
  }

  lemma {:induction false} PrefixEndBumpsLast(p: Bytes, c: Byte)
    requires c < 255
    ensures PrefixEnd(p + [c]) == Some(p + [c + 1])
  {
    if p == [] {
      assert p + [c] == [c] && p + [c + 1] == [c + 1];
    } else {
      assert (p + [c])[1..] == p[1..] + [c];
      PrefixEndBumpsLast(p[1..], c);
      assert [p[0]] + (p[1..] + [c + 1]) == p + [c + 1];
    }
  }

  /** `prefix_end`; `None` is the source's panic on an all-0xff prefix. */
  method FindPrefixEnd(prefix: Bytes) returns (end: Option<Bytes>)
    ensures end == PrefixEnd(prefix)
  {
    var e := prefix;
    while e != [] && e[|e| - 1] == 255
      invariant PrefixEnd(e) == PrefixEnd(prefix)
      decreases |e|
    {
      assert e == e[..|e| - 1] + [255];
      PrefixEndDropsLastMax(e[..|e| - 1]);
      e := e[..|e| - 1];
    }
    if e == [] {
      return None;
    }
    assert e == e[..|e| - 1] + [e[|e| - 1]];
    PrefixEndBumpsLast(e[..|e| - 1], e[|e| - 1]);
    return Some(e[..|e| - 1] + [e[|e| - 1] + 1]);
  }

  /** There is an end exactly when some byte of the prefix is below 0xff. */
  lemma {:induction false} PrefixEndExists(p: Bytes)
    ensures PrefixEnd(p).Some? <==> exists i :: 0 <= i < |p| && p[i] < 255
  {
    if p != [] {
      PrefixEndExists(p[1..]);
      if exists i :: 0 <= i < |p| && p[i] < 255 {
        var i :| 0 <= i < |p| && p[i] < 255;
        assert i > 0 ==> p[1..][i - 1] < 255;
      }
    }
  }

  /** Nothing but an extension lies above an all-0xff string. */
  lemma {:induction false} AboveAllMax(p: Bytes, key: Bytes)
    requires PrefixEnd(p) == None
    ensures AtMost(p, key) <==> p <= key
  {
    if p != [] {
      assert p[0] == 255 && PrefixEnd(p[1..]) == None;
      if key != [] {
        AboveAllMax(p[1..], key[1..]);
        assert key == [key[0]] + key[1..] && p == [p[0]] + p[1..];
      }
    } else {
      assert AtMost([], key);
    }
  }

  /** A key lies in `[p, prefix_end(p))` exactly when it starts with `p`. */
  lemma {:induction false} PrefixRangeIsExact(p: Bytes, key: Bytes)
    requires PrefixEnd(p).Some?
    ensures AtMost(p, key) && Less(key, PrefixEnd(p).value) <==> p <= key
  {
    var end := PrefixEnd(p).value;
    if key != [] {
      assert key == [key[0]] + key[1..] && p == [p[0]] + p[1..];
      if PrefixEnd(p[1..]).Some? {
        PrefixRangeIsExact(p[1..], key[1..]);
        assert end[1..] == PrefixEnd(p[1..]).value;
      } else {
        AboveAllMax(p[1..], key[1..]);
        assert end == [p[0] + 1] && end[1..] == [];
      }
    }
  }
}

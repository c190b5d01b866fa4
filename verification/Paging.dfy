/** Paged range reads with exclusive cursors, and the directory listing built
    on them (src/managed_catalog.rs: `read_page`, `list_children`). */
module Paging {
  import opened Outcomes
  import opened ByteStrings
  import opened Names
  import opened Keys

  const MAX_PAGE: nat := 1000

  datatype Row = Row(key: Bytes, value: Bytes)

  /** A consistent snapshot of the store is its rows in strict key order. */
  ghost predicate Ascending(rows: seq<Row>) {
    forall i, j :: 0 <= i < j < |rows| ==> Less(rows[i].key, rows[j].key)
  }

  /** Where a range read starts: at a key, or just above it. */
  datatype Begin = From(key: Bytes) | Above(key: Bytes)

  predicate Past(begin: Begin, key: Bytes) {
    match begin
    case From(k) => AtMost(k, key)
    case Above(k) => Less(k, key)
  }

  /** The rows of a snapshot that a range read covers, in order. */
  function Range(rows: seq<Row>, begin: Begin, end: Bytes): seq<Row> {
    if rows == [] then []
    else if Covers(begin, end, rows[0].key) then [rows[0]] + Range(rows[1..], begin, end)
    else Range(rows[1..], begin, end)
  }

  predicate Covers(begin: Begin, end: Bytes, key: Bytes) {
    Past(begin, key) && Less(key, end)
  }

  lemma {:induction false} RangeMembers(rows: seq<Row>, begin: Begin, end: Bytes, x: Row)
    ensures x in Range(rows, begin, end) <==> x in rows && Covers(begin, end, x.key)
  {
    if rows != [] {
      RangeMembers(rows[1..], begin, end, x);
      assert x in rows <==> x == rows[0] || x in rows[1..];
    }
  }

  lemma {:induction false} RangeAscends(rows: seq<Row>, begin: Begin, end: Bytes)
    requires Ascending(rows)
    ensures Ascending(Range(rows, begin, end))
  {
    if rows != [] {
      RangeAscends(rows[1..], begin, end);
      var rest := Range(rows[1..], begin, end);
      forall x | x in rest
        ensures Less(rows[0].key, x.key)
      {
        RangeMembers(rows[1..], begin, end, x);
        assert x in rows[1..];
      }
    }
  }

  lemma {:induction false} RangeSameRows(rows: seq<Row>, a: Begin, b: Begin, end: Bytes)
    requires forall x :: x in rows ==> (Past(a, x.key) <==> Past(b, x.key))
    ensures Range(rows, a, end) == Range(rows, b, end)
  {
    if rows != [] {
      RangeSameRows(rows[1..], a, b, end);
    }
  }

  lemma PastGrows(begin: Begin, a: Bytes, b: Bytes)
    requires Past(begin, a) && Less(a, b)
    ensures Past(begin, b)
  {
    if begin.key != a {
      LessTransitive(begin.key, a, b);
    }
  }

  lemma HeadIsBelow(rows: seq<Row>, begin: Begin, end: Bytes, x: Row)
    requires Ascending(rows) && rows != [] && x in Range(rows[1..], begin, end)
    ensures Less(rows[0].key, x.key)
  {
    RangeMembers(rows[1..], begin, end, x);
    var i :| 0 <= i < |rows[1..]| && rows[1..][i] == x;
    assert rows[i + 1] == x;
  }

  lemma RangeAboveHead(rows: seq<Row>, begin: Begin, end: Bytes)
    requires Ascending(rows) && rows != [] && Past(begin, rows[0].key)
    ensures Range(rows[1..], Above(rows[0].key), end) == Range(rows[1..], begin, end)
  {
    forall x | x in rows[1..]
      ensures Past(Above(rows[0].key), x.key) && Past(begin, x.key)
    {
      var i :| 0 <= i < |rows[1..]| && rows[1..][i] == x;
      assert rows[i + 1] == x;
      PastGrows(begin, rows[0].key, x.key);
    }
    RangeSameRows(rows[1..], Above(rows[0].key), begin, end);
  }

  /** Resuming above the k-th row of a range reads exactly the rows after it. */
  lemma {:induction false} RangeResumes(rows: seq<Row>, begin: Begin, end: Bytes, k: nat)
    requires Ascending(rows)
    requires 0 < k <= |Range(rows, begin, end)|
    ensures Range(rows, Above(Range(rows, begin, end)[k - 1].key), end) == Range(rows, begin, end)[k..]
  {
    var r := Range(rows, begin, end);
    var last := r[k - 1];
    var rest := Range(rows[1..], begin, end);
    if Covers(begin, end, rows[0].key) {
      assert r == [rows[0]] + rest;
      if k == 1 {
        LessIrreflexive(last.key);
        RangeAboveHead(rows, begin, end);
      } else {
        assert last == rest[k - 2];
        HeadIsBelow(rows, begin, end, last);
        LessAsymmetric(rows[0].key, last.key);
        RangeResumes(rows[1..], begin, end, k - 1);
        assert r[k..] == rest[k - 1..];
      }
    } else {
      assert last == rest[k - 1];
      HeadIsBelow(rows, begin, end, last);
      LessAsymmetric(rows[0].key, last.key);
      RangeResumes(rows[1..], begin, end, k);
    }
  }

  // ---------------------------------------------------------------- a page

  datatype Page = Page(items: seq<Row>, next: Option<Bytes>)

  function Start(prefix: Bytes, after: Option<Bytes>): Begin {
    match after
    case None => From(prefix)
    case Some(cursor) => Above(cursor)
  }

  /** The rows under a prefix beyond an optional cursor. */
  function Remaining(rows: seq<Row>, prefix: Bytes, after: Option<Bytes>): seq<Row> {
    match PrefixEnd(prefix)
    case None => []
    case Some(end) => Range(rows, Start(prefix, after), end)
  }

  /** The page a read must return: the first `limit` remaining rows, and the
      last key returned as cursor exactly when rows are left over. */
  function PageOf(rows: seq<Row>, prefix: Bytes, after: Option<Bytes>, limit: nat): Page
    requires limit > 0
  {
    var r := Remaining(rows, prefix, after);
    if |r| > limit then Page(r[..limit], Some(r[limit - 1].key)) else Page(r, None)
  }

  /** What the database may answer to one range request: a non-empty leading
      part of the range, cut anywhere, flagged `more` if anything is left. */
  datatype Batch = Batch(size: nat, more: bool)

  function Answer(range: seq<Row>, limit: nat, batch: Batch): (r: seq<Row>)
    ensures r <= range && |r| <= limit
    ensures limit > 0 && range != [] ==> r != []
  {
    var least := if batch.size == 0 then 1 else batch.size;
    var n := if least < limit then least else limit;
    range[..if n < |range| then n else |range|]
  }

  lemma BatchExtends(all: seq<Row>, got: seq<Row>, values: seq<Row>)
    requires got <= all && values <= all[|got|..]
    ensures got + values <= all
    ensures all[|got|..][|values|..] == all[|got + values|..]
  {
    assert all[|got|..][..|values|] == all[|got|..|got| + |values|];
  }

  /** `read_page`: collect batches until one row beyond the limit is seen,
      whatever sizes the database chooses for its answers. */
  method ReadPage(rows: seq<Row>, prefix: Bytes, after: Option<Bytes>, limit: nat, batches: nat -> Batch)
    returns (page: Page)
    requires Ascending(rows) && limit > 0
    requires PrefixEnd(prefix).Some?
    ensures page == PageOf(rows, prefix, after, limit)
  {
    var found := FindPrefixEnd(prefix);
    var end := found.value;
    ghost var all := Remaining(rows, prefix, after);
    var begin := Start(prefix, after);
    var got: seq<Row> := [];
    var iteration := 0;
    while true
      invariant |got| <= limit && got <= all
      invariant Range(rows, begin, end) == all[|got|..]
      decreases limit - |got|
    {
      var range := Range(rows, begin, end);
      var values := Answer(range, limit + 1 - |got|, batches(iteration));
      var more := |values| < |range| || batches(iteration).more;
      BatchExtends(all, got, values);
      got := got + values;
      if !more || values == [] || |got| == limit + 1 {
        break;
      }
      RangeResumes(rows, begin, end, |values|);
      begin := Above(values[|values| - 1].key);
      iteration := iteration + 1;
    }
    if |got| > limit {
      page := Page(got[..limit], Some(got[limit - 1].key));
    } else {
      page := Page(got, None);
    }
  }

  // ---------------------------------------------------------------- listing

  type Limit = n: nat | n > 0 witness 1

  /** One call of a client that asks page after page: the snapshot it sees and how many
      rows it asks for. */
  datatype Ask = Ask(rows: seq<Row>, limit: Limit)

  /** The rows returned by all calls together. */
  function Listing(asks: seq<Ask>, prefix: Bytes, after: Option<Bytes>): seq<Row> {
    if asks == [] then []
    else
      var page := PageOf(asks[0].rows, prefix, after, asks[0].limit);
      if page.next.None? then page.items else page.items + Listing(asks[1..], prefix, page.next)
  }

  /** The listing reached a page without a cursor. */
  predicate Finished(asks: seq<Ask>, prefix: Bytes, after: Option<Bytes>) {
    asks != [] &&
    var page := PageOf(asks[0].rows, prefix, after, asks[0].limit);
    page.next.None? || Finished(asks[1..], prefix, page.next)
  }

  lemma PageFacts(rows: seq<Row>, prefix: Bytes, after: Option<Bytes>, limit: nat)
    requires Ascending(rows) && limit > 0
    ensures var page := PageOf(rows, prefix, after, limit);
            Ascending(page.items) &&
            (forall x :: x in page.items ==> x in rows && Past(Start(prefix, after), x.key)) &&
            (page.next.Some? ==>
              |page.items| == limit && page.next.value == page.items[limit - 1].key &&
              forall x :: x in page.items ==> AtMost(x.key, page.next.value))
  {
    var r := Remaining(rows, prefix, after);
    if PrefixEnd(prefix).Some? {
      RangeAscends(rows, Start(prefix, after), PrefixEnd(prefix).value);
    }
    var page := PageOf(rows, prefix, after, limit);
    forall x | x in page.items
      ensures x in rows && Past(Start(prefix, after), x.key)
    {
      assert x in r;
      RangeMembers(rows, Start(prefix, after), PrefixEnd(prefix).value, x);
    }
  }

  /** Whatever changes between pages, keys are returned in strictly rising
      order: none twice, and every row was present when it was read. */
  lemma {:induction false} ListingAscends(asks: seq<Ask>, prefix: Bytes, after: Option<Bytes>)
    requires forall s :: s in asks ==> Ascending(s.rows)
    ensures Ascending(Listing(asks, prefix, after))
    ensures forall x :: x in Listing(asks, prefix, after) ==>
              Past(Start(prefix, after), x.key) && exists s :: s in asks && x in s.rows
  {
    if asks != [] {
      var page := PageOf(asks[0].rows, prefix, after, asks[0].limit);
      PageFacts(asks[0].rows, prefix, after, asks[0].limit);
      if page.next.Some? {
        ListingAscends(asks[1..], prefix, page.next);
        var rest := Listing(asks[1..], prefix, page.next);
        var last := page.items[asks[0].limit - 1];
        forall x | x in rest
          ensures Past(Start(prefix, after), x.key) && exists s :: s in asks && x in s.rows
          ensures forall y :: y in page.items ==> Less(y.key, x.key)
        {
          assert last in page.items;
          PastGrows(Start(prefix, after), last.key, x.key);
          var s :| s in asks[1..] && x in s.rows;
          assert s in asks;
          forall y | y in page.items
            ensures Less(y.key, x.key)
          {
            if y.key != last.key {
              LessTransitive(y.key, last.key, x.key);
            }
          }
        }
      }
    }
  }

  lemma PageMisses(rows: seq<Row>, prefix: Bytes, after: Option<Bytes>, limit: nat, x: Row)
    requires Ascending(rows) && limit > 0 && PrefixEnd(prefix).Some?
    requires x in rows && prefix <= x.key && Past(Start(prefix, after), x.key)
    requires x !in PageOf(rows, prefix, after, limit).items
    ensures PageOf(rows, prefix, after, limit).next.Some?
    ensures Less(PageOf(rows, prefix, after, limit).next.value, x.key)
  {
    PrefixRangeIsExact(prefix, x.key);
    var r := Remaining(rows, prefix, after);
    RangeAscends(rows, Start(prefix, after), PrefixEnd(prefix).value);
    RangeMembers(rows, Start(prefix, after), PrefixEnd(prefix).value, x);
    var i :| 0 <= i < |r| && r[i] == x;
    assert forall j :: 0 <= j < limit < |r| ==> r[..limit][j] == r[j];
    assert Less(r[limit - 1].key, r[i].key) || i == limit - 1;
  }

  /** A row under the prefix that every snapshot holds is in the listing. */
  lemma {:induction false} ListingIsComplete(asks: seq<Ask>, prefix: Bytes, after: Option<Bytes>, x: Row)
    requires PrefixEnd(prefix).Some?
    requires forall s :: s in asks ==> Ascending(s.rows) && x in s.rows
    requires prefix <= x.key && Past(Start(prefix, after), x.key)
    requires Finished(asks, prefix, after)
    ensures x in Listing(asks, prefix, after)
  {
    var page := PageOf(asks[0].rows, prefix, after, asks[0].limit);
    if x !in page.items {
      assert asks[0] in asks;
      PageMisses(asks[0].rows, prefix, after, asks[0].limit, x);
      ListingIsComplete(asks[1..], prefix, page.next, x);
    }
  }

  /** How many rows the calls ask for together. */
  function Asked(asks: seq<Ask>): nat {
    if asks == [] then 0 else asks[0].limit + Asked(asks[1..])
  }

  /** On an unchanging store calls that ask for enough rows together, each for as many
      as it likes, finish the listing and return exactly the remaining rows. */
  lemma {:induction false} ListingOfStableStore(rows: seq<Row>, asks: seq<Ask>, prefix: Bytes, after: Option<Bytes>)
    requires Ascending(rows) && asks != [] && PrefixEnd(prefix).Some? && forall k :: 0 <= k < |asks| ==> asks[k].rows == rows
    requires |Remaining(rows, prefix, after)| <= Asked(asks)
    ensures Finished(asks, prefix, after) && Listing(asks, prefix, after) == Remaining(rows, prefix, after)
    decreases |asks|
  {
    var r, limit := Remaining(rows, prefix, after), asks[0].limit;
    var page := PageOf(rows, prefix, after, limit);
    if page.next.Some? {
      PageResumes(rows, prefix, after, limit);
      ListingOfStableStore(rows, asks[1..], prefix, page.next);
      assert r[..limit] + r[limit..] == r;
    }
  }

  /** A cursor resumes right after the page it came with. */
  lemma PageResumes(rows: seq<Row>, prefix: Bytes, after: Option<Bytes>, limit: nat)
    requires Ascending(rows) && limit > 0 && PrefixEnd(prefix).Some? && PageOf(rows, prefix, after, limit).next.Some?
    ensures var page, r := PageOf(rows, prefix, after, limit), Remaining(rows, prefix, after);
            page.items == r[..limit] && Remaining(rows, prefix, page.next) == r[limit..]
  {
    RangeResumes(rows, Start(prefix, after), PrefixEnd(prefix).value, limit);
  }

  // ------------------------------------------------------- directory entries

  datatype Child = Child(name: Bytes, id: Uuid)
  datatype ChildPage = ChildPage(items: seq<Child>, next: Option<Bytes>)

  predicate CursorAccepted(prefix: Bytes, cursor: Bytes) {
    prefix <= cursor && Unescape(cursor[|prefix|..]).Ok? && |cursor| <= |prefix| + 2 * MAX_NAME + 2
  }

  function ChildRow(ns: Uuid, parent: Uuid, child: Child): Row {
    Row(EncodeKey(ChildKey(ns, parent, child.name)), Id(child.id))
  }

  lemma ChildKeyShape(ns: Uuid, parent: Uuid, name: Bytes)
    ensures EncodeKey(ChildKey(ns, parent, name)) == ChildPrefix(ns, parent) + Escape(name)
    ensures PrefixEnd(ChildPrefix(ns, parent)).Some?
  {
    assert Lead(67) + (Id(ns) + (Id(parent) + Escape(name))) == Lead(67) + (Id(ns) + Id(parent)) + Escape(name);
    assert ChildPrefix(ns, parent)[0] == 116;
    PrefixEndExists(ChildPrefix(ns, parent));
  }

  /** The snapshot's rows under a directory's prefix are that directory's entries. */
  ghost predicate HoldsDirectory(rows: seq<Row>, ns: Uuid, parent: Uuid, entries: set<Child>) {
    && (forall c :: c in entries ==> ValidName(c.name) && ChildRow(ns, parent, c) in rows)
    && (forall x :: x in rows && ChildPrefix(ns, parent) <= x.key ==>
          exists c :: c in entries && ChildRow(ns, parent, c) == x)
  }

  /** The checks a listing request must pass before anything is read. */
  predicate RequestAccepted(ns: Uuid, parent: Uuid, after: Option<Bytes>, limit: nat) {
    (after.Some? ==> CursorAccepted(ChildPrefix(ns, parent), after.value)) && 1 <= limit <= 1000
  }

  /** `children` is what the rows of a page say under `prefix`. */
  ghost predicate Decodes(prefix: Bytes, rows: seq<Row>, children: seq<Child>) {
    |children| == |rows| &&
    forall i :: 0 <= i < |rows| ==>
      rows[i] == Row(prefix + Escape(children[i].name), Id(children[i].id))
  }

  /** The decoding step of `list_children`: one undecodable row fails the page. */
  method DecodeChildren(prefix: Bytes, rows: seq<Row>) returns (r: Result<seq<Child>>)
    requires forall x :: x in rows ==> prefix <= x.key
    ensures r.Ok? ==> Decodes(prefix, rows, r.value)
    ensures r.Err? ==> r == Err(Corrupt) && forall children: seq<Child> :: !Decodes(prefix, rows, children)
  {
    var items: seq<Child> := [];
    var i := 0;
    while i < |rows|
      invariant 0 <= i <= |rows| && Decodes(prefix, rows[..i], items)
    {
      var row := rows[i];
      assert row in rows;
      ghost var suffix := row.key[|prefix|..];
      assert row.key == prefix + suffix;
      var name := DecodeName(row.key[|prefix|..]);
      if name.Err? || |row.value| != 16 {
        forall children: seq<Child> | Decodes(prefix, rows, children)
          ensures false
        {
          assert row == Row(prefix + Escape(children[i].name), Id(children[i].id));
          assert suffix == Escape(children[i].name);
          NameEncodingIsBijection(suffix, children[i].name);
        }
        return Err(Corrupt);
      }
      NameEncodingIsBijection(suffix, name.value);
      IdCanonical(row.value);
      items := items + [Child(name.value, DecodeId(row.value))];
      i := i + 1;
    }
    assert rows[..i] == rows;
    return Ok(items);
  }

  /** `list_children` outside an Active namespace. */
  method ListChildren(rows: seq<Row>, readable: bool, ns: Uuid, parent: Uuid, after: Option<Bytes>, limit: nat,
                      batches: nat -> Batch)
    returns (r: Result<ChildPage>)
    requires Ascending(rows)
    ensures !RequestAccepted(ns, parent, after, limit) ==> r == Err(Invalid)
    ensures RequestAccepted(ns, parent, after, limit) && !readable ==> r == Err(Incomplete)
    ensures RequestAccepted(ns, parent, after, limit) && readable ==>
              var page := PageOf(rows, ChildPrefix(ns, parent), after, limit);
              match r
              case Ok(children) =>
                children.next == page.next && Decodes(ChildPrefix(ns, parent), page.items, children.items)
              case Err(error) =>
                error == Corrupt && forall children: seq<Child> :: !Decodes(ChildPrefix(ns, parent), page.items, children)
  {
    var prefix := ChildPrefix(ns, parent);
    ChildKeyShape(ns, parent, []);
    if after.Some? {
      var cursor := after.value;
      if !(prefix <= cursor) {
        return Err(Invalid);
      }
      var decoded := DecodeName(cursor[|prefix|..]);
      if decoded.Err? || |cursor| > |prefix| + 2 * MAX_NAME + 2 {
        return Err(Invalid);
      }
    }
    if !(1 <= limit <= MAX_PAGE) {
      return Err(Invalid);
    }
    if !readable {
      return Err(Incomplete);
    }
    var page := ReadPage(rows, prefix, after, limit, batches);
    forall x | x in page.items
      ensures prefix <= x.key
    {
      RowUnderPrefix(rows, prefix, after, limit, x);
    }
    var children := DecodeChildren(prefix, page.items);
    match children {
      case Ok(items) => return Ok(ChildPage(items, page.next));
      case Err(error) => return Err(error);
    }
  }

  /** Rows of a page start with the prefix when the cursor does. */
  lemma RowUnderPrefix(rows: seq<Row>, prefix: Bytes, after: Option<Bytes>, limit: nat, x: Row)
    requires Ascending(rows) && limit > 0 && PrefixEnd(prefix).Some?
    requires after.Some? ==> prefix <= after.value
    requires x in PageOf(rows, prefix, after, limit).items
    ensures x in rows && prefix <= x.key
  {
    var r := Remaining(rows, prefix, after);
    assert x in r;
    RangeMembers(rows, Start(prefix, after), PrefixEnd(prefix).value, x);
    if after.Some? {
      PrefixRangeIsExact(prefix, after.value);
      if prefix != after.value {
        LessTransitive(prefix, after.value, x.key);
      }
    }
    PrefixRangeIsExact(prefix, x.key);
  }

  /** Every cursor a listing hands out is accepted when it comes back, and resumes right
      after the last child returned. */
  lemma CursorRoundTrip(rows: seq<Row>, ns: Uuid, parent: Uuid, entries: set<Child>, after: Option<Bytes>, limit: nat)
    requires Ascending(rows) && limit > 0 && HoldsDirectory(rows, ns, parent, entries)
    requires after.Some? ==> CursorAccepted(ChildPrefix(ns, parent), after.value)
    requires PageOf(rows, ChildPrefix(ns, parent), after, limit).next.Some?
    ensures CursorAccepted(ChildPrefix(ns, parent), PageOf(rows, ChildPrefix(ns, parent), after, limit).next.value)
    ensures var page, r := PageOf(rows, ChildPrefix(ns, parent), after, limit), Remaining(rows, ChildPrefix(ns, parent), after);
            page.items == r[..limit] && Remaining(rows, ChildPrefix(ns, parent), page.next) == r[limit..]
  {
    var prefix := ChildPrefix(ns, parent);
    ChildKeyShape(ns, parent, []);
    PageResumes(rows, prefix, after, limit);
    PageFacts(rows, prefix, after, limit);
    var page := PageOf(rows, prefix, after, limit);
    var row := page.items[limit - 1];
    RowUnderPrefix(rows, prefix, after, limit, row);
    var c :| c in entries && ChildRow(ns, parent, c) == row;
    ChildKeyShape(ns, parent, c.name);
    assert row.key[|prefix|..] == Escape(c.name);
    NameEncodingIsBijection(Escape(c.name), c.name);
  }

  /** A finished listing returns children in strict byte order of their names,
      none twice, and every child that stayed throughout is among them. */
  lemma ListingOfChildren(asks: seq<Ask>, ns: Uuid, parent: Uuid, kept: Child, children: seq<Child>)
    requires Finished(asks, ChildPrefix(ns, parent), None)
    requires forall s :: s in asks ==> Ascending(s.rows)
    requires Decodes(ChildPrefix(ns, parent), Listing(asks, ChildPrefix(ns, parent), None), children)
    ensures forall i, j :: 0 <= i < j < |children| ==> Less(children[i].name, children[j].name)
    ensures (forall s :: s in asks ==> ChildRow(ns, parent, kept) in s.rows) ==> kept in children
  {
    var prefix := ChildPrefix(ns, parent);
    var l := Listing(asks, prefix, None);
    ListingAscends(asks, prefix, None);
    forall i, j | 0 <= i < j < |children|
      ensures Less(children[i].name, children[j].name)
    {
      LessAfterPrefix(prefix, Escape(children[i].name), Escape(children[j].name));
      NameEncodingKeepsOrder(children[i].name, children[j].name);
    }
    if forall s :: s in asks ==> ChildRow(ns, parent, kept) in s.rows {
      var x := ChildRow(ns, parent, kept);
      ChildKeyShape(ns, parent, kept.name);
      PrefixRangeIsExact(prefix, x.key);
      ListingIsComplete(asks, prefix, None, x);
      var i :| 0 <= i < |l| && l[i] == x;
      SplitEqual(prefix, prefix, Escape(children[i].name), Escape(kept.name));
      NameEncodingIsBijection(Escape(kept.name), kept.name);
      NameEncodingIsBijection(Escape(kept.name), children[i].name);
      IdInjective(children[i].id, kept.id);
    }
  }
}

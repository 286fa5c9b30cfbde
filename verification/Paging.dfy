/** Page tokens and one page of a query. */
module Paging {
  import opened Wrappers

  type Byte = n: nat | n < 0x100
  type I64 = n: int | -0x8000_0000_0000_0000 <= n <= 0x7FFF_FFFF_FFFF_FFFF
  type U64 = n: nat | n <= 0xFFFF_FFFF_FFFF_FFFF

  const I64_MAX: I64 := 0x7FFF_FFFF_FFFF_FFFF
  const TWO_64 := 0x1_0000_0000_0000_0000
  const DIGEST_LEN := 32
  const CURSOR_LEN := 8 + DIGEST_LEN

  type Digest = s: seq<Byte> | |s| == DIGEST_LEN witness seq(DIGEST_LEN, _ => 0)

  /** A stored receipt, by its sort key. */
  datatype Row = Row(ns: I64, id: Digest)

  datatype Cursor = Cursor(ns: I64, digest: seq<Byte>)

  datatype Page = Page(receipts: seq<Row>, nextPageToken: Option<seq<Byte>>)

  datatype Error = WrongTokenLength(got: nat)

  // ---- Integers ----

  function U64ToI64(v: U64): I64 {
    if v <= I64_MAX then v else I64_MAX
  }

  function I64ToU64(v: I64): U64 {
    if v < 0 then 0 else v
  }

  /** A timestamp survives storage exactly when it fits, and saturation never reorders two of them; a negative one reads as 0. */
  lemma StoredExactly(v: U64, w: U64, stored: I64)
    ensures U64ToI64(I64ToU64(stored)) == if stored < 0 then 0 else stored
    ensures I64ToU64(U64ToI64(v)) == v <==> v <= I64_MAX
    ensures v <= w ==> U64ToI64(v) <= U64ToI64(w)
    ensures U64ToI64(v) < U64ToI64(w) ==> v < w
  {
  }

  /**
   * A time window finds a stored receipt as asked, except that a saturated receipt is found by every window that
   * reaches up to the largest stored timestamp, whatever its two bounds were.
   */
  lemma WindowExactly(v: U64, from: U64, to: U64)
    ensures U64ToI64(from) <= U64ToI64(v) <= U64ToI64(to)
      <==> from <= v <= to || (v >= I64_MAX && to >= I64_MAX)
  {
  }

  // ---- Big-endian bytes ----

  function Pow256(n: nat): (p: nat)
    ensures p > 0
  {
    if n == 0 then 1 else 0x100 * Pow256(n - 1)
  }

  function ToBytes(v: nat, n: nat): (s: seq<Byte>)
    ensures |s| == n
  {
    if n == 0 then [] else ToBytes(v / 0x100, n - 1) + [v % 0x100]
  }

  function FromBytes(s: seq<Byte>): nat {
    if s == [] then 0 else 0x100 * FromBytes(s[..|s| - 1]) + s[|s| - 1]
  }

  lemma {:induction false} BytesRead(v: nat, n: nat)
    requires v < Pow256(n)
    ensures FromBytes(ToBytes(v, n)) == v
  {
    if n > 0 {
      BytesRead(v / 0x100, n - 1);
      assert ToBytes(v, n)[..n - 1] == ToBytes(v / 0x100, n - 1);
    }
  }

  lemma {:induction false} BytesWritten(s: seq<Byte>)
    ensures FromBytes(s) < Pow256(|s|)
    ensures ToBytes(FromBytes(s), |s|) == s
  {
    if s != [] {
      BytesWritten(s[..|s| - 1]);
    }
  }

  function ToTwosComplement(v: I64): U64 {
    if v < 0 then v + TWO_64 else v
  }

  function FromTwosComplement(u: U64): I64 {
    if u <= I64_MAX then u else u - TWO_64
  }

  // ---- The token ----

  /** Cuts to, or pads with zeros up to, n bytes. */
  function Resize(s: seq<Byte>, n: nat): (r: seq<Byte>)
    ensures |r| == n
  {
    if |s| >= n then s[..n] else s + seq(n - |s|, _ => 0)
  }

  function EncodeCursor(c: Cursor): (t: seq<Byte>)
    ensures |t| == CURSOR_LEN
  {
    ToBytes(ToTwosComplement(c.ns), 8) + Resize(c.digest, DIGEST_LEN)
  }

  lemma EightBytes(s: seq<Byte>)
    requires |s| == 8
    ensures Pow256(8) == TWO_64 && FromBytes(s) < TWO_64
  {
    BytesWritten(s);
    assert Pow256(4) == 0x1_0000_0000;
    assert Pow256(6) == 0x1_0000_0000_0000;
    assert Pow256(8) == TWO_64;
  }

  function DecodeCursor(t: seq<Byte>): Result<Cursor, Error> {
    if |t| != CURSOR_LEN then
      Err(WrongTokenLength(|t|))
    else
      EightBytes(t[..8]);
      Ok(Cursor(FromTwosComplement(FromBytes(t[..8])), t[8..]))
  }

  /** A token gives its cursor back exactly when the digest has its proper length; the timestamp always comes back. */
  lemma CursorRoundTrip(c: Cursor)
    ensures DecodeCursor(EncodeCursor(c)).Ok?
    ensures DecodeCursor(EncodeCursor(c)).value.ns == c.ns
    ensures DecodeCursor(EncodeCursor(c)) == Ok(c) <==> |c.digest| == DIGEST_LEN
    ensures var digest := DecodeCursor(EncodeCursor(c)).value.digest;
      |digest| == DIGEST_LEN && forall k :: 0 <= k < DIGEST_LEN ==> digest[k] == if k < |c.digest| then c.digest[k] else 0
  {
    var t := EncodeCursor(c);
    var u := ToTwosComplement(c.ns);
    assert t[..8] == ToBytes(u, 8) && t[8..] == Resize(c.digest, DIGEST_LEN);
    EightBytes(t[..8]);
    BytesRead(u, 8);
    if |c.digest| == DIGEST_LEN {
      assert c.digest[..DIGEST_LEN] == c.digest;
    }
  }

  /** Exactly the tokens of 40 bytes decode, and each is the token of what it decodes to. */
  lemma TokenRoundTrip(t: seq<Byte>)
    ensures DecodeCursor(t).Ok? <==> |t| == CURSOR_LEN
    ensures DecodeCursor(t).Ok? ==> EncodeCursor(DecodeCursor(t).value) == t && |DecodeCursor(t).value.digest| == DIGEST_LEN
  {
    if |t| == CURSOR_LEN {
      EightBytes(t[..8]);
      BytesWritten(t[..8]);
      assert t == t[..8] + t[8..];
    }
  }

  // ---- One page ----

  function CursorOf(r: Row): Cursor {
    Cursor(r.ns, r.id)
  }

  class PostgresStore {
    const pageLimit: nat

    /** The limit is clamped to at least one. */
    constructor (limit: nat)
      ensures pageLimit == if limit < 1 then 1 else limit
    {
      pageLimit := if limit < 1 then 1 else limit;
    }

    /**
     * `rows` is the database's answer, which was asked for one row more than the page holds. The page drops that
     * row and, exactly when there was one, names the last row it keeps in the next token.
     */
    method Query(pageToken: Option<seq<Byte>>, rows: seq<Row>) returns (r: Result<Page, Error>)
      requires pageLimit >= 1
      ensures r.Err? <==> pageToken.Some? && |pageToken.value| != CURSOR_LEN
      ensures r.Ok? ==> r.value == PageFrom(pageLimit, rows)
      ensures r.Ok? && r.value.nextPageToken.Some? ==>
        && r.value.receipts != []
        && DecodeCursor(r.value.nextPageToken.value) == Ok(CursorOf(r.value.receipts[|r.value.receipts| - 1]))
    {
      if pageToken.Some? {
        var cursor := DecodeCursor(pageToken.value);
        if cursor.Err? {
          return Err(cursor.error);
        }
      }
      var hasMore := |rows| > pageLimit;
      var kept := if hasMore then rows[..pageLimit] else rows;
      var receipts: seq<Row> := [];
      var lastCursor := None;
      var i := 0;
      while i < |kept|
        invariant 0 <= i <= |kept| && receipts == kept[..i]
        invariant lastCursor == if i == 0 then None else Some(CursorOf(kept[i - 1]))
      {
        lastCursor := Some(CursorOf(kept[i]));
        receipts := receipts + [kept[i]];
        i := i + 1;
      }
      var token := if hasMore && lastCursor.Some? then Some(EncodeCursor(lastCursor.value)) else None;
      if token.Some? {
        CursorRoundTrip(lastCursor.value);
      }
      r := Ok(Page(receipts, token));
    }
  }

  function PageFrom(limit: nat, rows: seq<Row>): Page
    requires limit >= 1
  {
    if |rows| > limit then
      Page(rows[..limit], Some(EncodeCursor(CursorOf(rows[limit - 1]))))
    else
      Page(rows, None)
  }
}

/** Page parameters (domain/paginate.go) in int32 arithmetic, and the pages they
    cut from an ordered result set. */
module Paginate {
  import opened Wrappers
  import opened Collections
  import opened FriendStore

  const TWO_31: int := 0x8000_0000
  const TWO_32: int := 0x1_0000_0000
  const DEFAULT_LIMIT: int := 20
  const MAX_LIMIT: int := 100

  newtype int32 = x: int | -0x8000_0000 <= x < 0x8000_0000

  /** Two's complement wrap-around of an exact result. */
  function Wrap(x: int): int32 {
    (((x + TWO_31) % TWO_32) - TWO_31) as int32
  }

  function ValidatePaginationParams(limit: int32, page: int32): (r: (int32, int32))
    ensures 1 <= limit <= 100 ==> r.1 == limit
    ensures limit < 1 || limit > 100 ==> r.1 == 20
    ensures page <= 1 ==> r.0 == 0
    ensures 1 <= r.1 <= 100
  {
    var p := if page < 1 then 1 else page;
    var l := if limit < 1 || limit as int > MAX_LIMIT then DEFAULT_LIMIT as int32 else limit;
    (Wrap((p as int - 1) * l as int), l)
  }

  /** The page the parameters mean, counted from 0. */
  function PageIndex(page: int32): nat {
    if page < 1 then 0 else page as int - 1
  }

  /** What wrapping keeps: the low 32 bits. */
  lemma WrapIsCongruent(x: int)
    ensures (x - Wrap(x) as int) % 0x1_0000_0000 == 0
  {
    var y := x + TWO_31;
    assert y == (y / TWO_32) * TWO_32 + y % TWO_32;
    assert x - Wrap(x) as int == (y / TWO_32) * 0x1_0000_0000;
  }

  /** The number of items on a page: the limit, if it is between 1 and 100. */
  predicate IsSize(limit: int32, size: int) {
    if 1 <= limit <= 100 then size == limit as int else size == 20
  }

  lemma WrapExactIff(x: int)
    requires 0 <= x
    ensures Wrap(x) as int == x <==> x <= 0x7FFF_FFFF
    ensures x <= 0x7FFF_FFFF ==> Wrap(x) >= 0
  {
  }

  lemma Product(a: nat, b: nat)
    ensures a * b >= 0
  {
  }

  /** The offset is exact iff the product fits in an int32. */
  lemma OffsetExactIff(limit: int32, page: int32, size: int, product: int)
    requires IsSize(limit, size) && product == (if page < 1 then 0 else page as int - 1) * size
    ensures var offset := ValidatePaginationParams(limit, page).0;
            && (offset as int == product <==> product <= 0x7FFF_FFFF)
            && (product <= 0x7FFF_FFFF ==> offset >= 0)
  {
    Product(PageIndex(page), size);
    assert ValidatePaginationParams(limit, page).0 == Wrap(product);
    WrapExactIff(product);
  }

  /** Beyond that it can come out negative, or non-negative and wrong: page
      21474838 of 100 and page 42949674 of 100. */
  lemma OffsetWraps()
    ensures ValidatePaginationParams(100, 21474838).0 == -2147483596
    ensures ValidatePaginationParams(100, 42949674).0 == 4
  {
  }

  /** LIMIT and OFFSET on an ordered result; PostgreSQL refuses a negative OFFSET. */
  function Page<T>(s: seq<T>, limit: int, offset: int): Option<seq<T>>
    requires 0 <= limit
  {
    if offset < 0 then None
    else Some(s[Least(offset, |s|)..Least(offset + limit, |s|)])
  }

  /** What a caller gets for a page of a fixed result. */
  function Fetch<T>(s: seq<T>, limit: int32, page: int32): Option<seq<T>> {
    var (offset, size) := ValidatePaginationParams(limit, page);
    Page(s, size as int, offset as int)
  }

  /** So a late enough page is refused for its negative offset, and a later one
      shows the items from the fifth on. */
  lemma WrappedPages<T>(s: seq<T>)
    requires |s| >= 104
    ensures Fetch(s, 100, 21474838) == None && Fetch(s, 100, 42949674) == Some(s[4..104])
  {
    OffsetWraps();
  }

  /** Pages 1 to k, one after the other. */
  function Pages<T>(s: seq<T>, limit: int32, k: int32): Option<seq<T>>
    requires k >= 0
    decreases k as int
  {
    if k == 0 then Some([])
    else match (Pages(s, limit, k - 1), Fetch(s, limit, k))
         case (Some(before), Some(last)) => Some(before + last)
         case _ => None
  }

  /** One page whose offset fits: limit items from there, or as many as there are. */
  lemma FetchIs<T>(s: seq<T>, limit: int32, size: int, k: int32, lo: int)
    requires IsSize(limit, size) && k >= 1 && lo == (k as int - 1) * size <= 0x7FFF_FFFF
    ensures lo >= 0
    ensures Fetch(s, limit, k) == Some(if lo >= |s| then [] else if lo + size >= |s| then s[lo..] else s[lo..lo + size])
  {
    Product(k as int - 1, size);
    OffsetExactIff(limit, k, size, lo);
    var from, to := Least(lo, |s|), Least(lo + size, |s|);
    assert Fetch(s, limit, k) == Some(s[from..to]);
    if lo >= |s| {
      assert s[from..to] == [];
    } else if lo + size >= |s| {
      assert s[from..to] == s[lo..];
    }
  }

  lemma Join<T>(s: seq<T>, lo: int, size: int)
    requires lo >= 0 && size >= 0
    ensures (if lo <= |s| then s[..lo] else s)
            + (if lo >= |s| then [] else if lo + size >= |s| then s[lo..] else s[lo..lo + size])
            == if lo + size <= |s| then s[..lo + size] else s
  {
  }

  /** As long as the offsets fit, pages 1 to k tile the first k * limit items. */
  lemma {:induction false} PagesTile<T>(s: seq<T>, limit: int32, size: int, k: int32)
    requires IsSize(limit, size) && k >= 0
    requires k >= 1 ==> (k as int - 1) * size <= 0x7FFF_FFFF
    ensures Pages(s, limit, k) == Some(if k as int * size <= |s| then s[..k as int * size] else s)
    decreases k as int
  {
    if k > 0 {
      var lo := (k as int - 1) * size;
      Steps(k as int, size);
      PagesTile(s, limit, size, k - 1);
      FetchIs(s, limit, size, k, lo);
      Join(s, lo, size);
    }
  }

  lemma Steps(k: int, size: int)
    requires size >= 0
    ensures k * size == (k - 1) * size + size && (k - 2) * size <= (k - 1) * size
  {
  }

  function CeilDiv(a: nat, b: nat): nat
    requires b > 0
  {
    (a + b - 1) / b
  }

  lemma CeilBounds(n: nat, b: nat)
    requires b > 0
    ensures CeilDiv(n, b) * b >= n
    ensures n > 0 ==> (CeilDiv(n, b) - 1) * b < n
  {
    var q := CeilDiv(n, b);
    assert n + b - 1 == q * b + (n + b - 1) % b;
    assert (q - 1) * b == q * b - b;
  }

  lemma Monotone(a: int, b: int, size: int)
    requires a <= b && size >= 0
    ensures a * size <= b * size
  {
  }

  /** Page k starts at or past n items iff k lies past the ceil(n / size)-th. */
  lemma PastIff(n: nat, size: nat, k: int)
    requires size > 0
    ensures (k - 1) * size >= n <==> k > CeilDiv(n, size)
  {
    var q: int := CeilDiv(n, size);
    CeilBounds(n, size);
    if k > q {
      Monotone(q, k - 1, size);
    } else {
      Monotone(k - 1, q - 1, size);
    }
  }

  /** Page k of a result of n items is empty iff k lies past the last of its
      ceil(n / limit) pages. */
  lemma PageEmptyIff<T>(s: seq<T>, limit: int32, size: int, k: int32)
    requires IsSize(limit, size) && k >= 1 && (k as int - 1) * size <= 0x7FFF_FFFF
    ensures Fetch(s, limit, k).Some?
    ensures Fetch(s, limit, k).value == [] <==> k as int > CeilDiv(|s|, size)
  {
    FetchIs(s, limit, size, k, (k as int - 1) * size);
    PastIff(|s|, size, k as int);
  }

  /** Paging through one's friends yields every friend exactly once, in ascending
      order of id, in ceil(accepted / limit) pages, none of them empty. */
  lemma FriendPages(t: Table, u: int, limit: int32, size: int, k: int32)
    requires WellFormed(t) && IsSize(limit, size) && k >= 0
    requires k as int == CeilDiv(Count(t, u).accepted, size)
    requires Count(t, u).accepted <= 0x7FFF_FFFF
    ensures Pages(FriendsList(t, u), limit, k) == Some(FriendsList(t, u))
    ensures Lists(FriendsList(t, u), FriendsOf(t, u)) && Ascending(FriendsList(t, u))
    ensures forall i: int32 :: 1 <= i <= k ==>
              Fetch(FriendsList(t, u), limit, i).Some? && Fetch(FriendsList(t, u), limit, i).value != []
  {
    var s := FriendsList(t, u);
    FriendsListed(t, u);
    SortedEnumerates(FriendsOf(t, u));
    CountsAreListSizes(t, u);
    ListSize(s, FriendsOf(t, u));
    AllPages(s, limit, size, k);
  }

  /** The ceil(n / limit) pages of a result give all of it and are none of them empty. */
  lemma AllPages<T>(s: seq<T>, limit: int32, size: int, k: int32)
    requires IsSize(limit, size) && k as int == CeilDiv(|s|, size)
    requires |s| <= 0x7FFF_FFFF
    ensures Pages(s, limit, k) == Some(s)
    ensures forall i: int32 :: 1 <= i <= k ==> Fetch(s, limit, i).Some? && Fetch(s, limit, i).value != []
  {
    if k > 0 {
      PastIff(|s|, size, k as int);
    }
    PastIff(|s|, size, k as int + 1);
    PagesTile(s, limit, size, k);
    assert s[..|s|] == s;
    forall i: int32 | 1 <= i <= k
      ensures Fetch(s, limit, i).Some? && Fetch(s, limit, i).value != []
    {
      PastIff(|s|, size, i as int);
      PageEmptyIff(s, limit, size, i);
    }
  }
}

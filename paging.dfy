/**
 * Pagination as the controllers normalise it (`parseInt(q) || d`, then
 * `> 0 ? q : d`) and as the services apply it (skip `(page - 1) * limit`,
 * take `limit`).
 */
module Paging {
  import opened Common
  import opened Js
  import opened Text

  const DefaultPage := 1
  const DefaultLimit := 10

  /**
   * `const p = parseInt(raw) || d; const norm = p > 0 ? p : d;`
   * The parsed number when it is positive, the default otherwise.
   */
  function Normalize(raw: Option<string>, default: int): (r: int)
    requires default >= 1
    ensures r >= 1
    ensures r == default || ParseParam(raw) == Some(r)
    ensures forall n :: ParseParam(raw) == Some(n) && n > 0 ==> r == n
  {
    var p := ParseParam(raw);
    var q := if p.Some? && p.value != 0 then p.value else default;
    if q > 0 then q else default
  }

  /** A listing's page and page size after normalisation. */
  datatype PageRequest = PageRequest(page: int, limit: int)

  /** `parseInt(q) || d`, then `> 0 ? q : d`, for both query parameters. */
  function PageRequestOf(rawPage: Option<string>, rawLimit: Option<string>): (p: PageRequest)
    ensures p.page >= 1 && p.limit >= 1
    ensures p.page == DefaultPage || ParseParam(rawPage) == Some(p.page)
    ensures p.limit == DefaultLimit || ParseParam(rawLimit) == Some(p.limit)
    ensures forall n :: ParseParam(rawPage) == Some(n) && n > 0 ==> p.page == n
    ensures forall n :: ParseParam(rawLimit) == Some(n) && n > 0 ==> p.limit == n
  {
    PageRequest(Normalize(rawPage, DefaultPage), Normalize(rawLimit, DefaultLimit))
  }

  /** Absent, zero, negative or unreadable page parameters give page 1 of 10. */
  lemma DefaultPageRequest(rawPage: Option<string>, rawLimit: Option<string>)
    requires ParseParam(rawPage).None? || ParseParam(rawPage).value <= 0
    requires ParseParam(rawLimit).None? || ParseParam(rawLimit).value <= 0
    ensures PageRequestOf(rawPage, rawLimit) == PageRequest(1, 10)
  {
  }

  /** `parseInt` is given no radix, so a page written in hexadecimal is read as such. */
  lemma HexPageParameter()
    ensures PageRequestOf(Some("0x2"), Some("0x")) == PageRequest(2, 10)
  {
    var s := "0x2";
    UnsignedOfPlain(s);
    assert s[2..] == "2";
    assert HexPrefixLength("2") == 1 by {
      assert "2"[1..] == [];
    }
    assert "2"[..1] == "2";
    assert HexValue("2") == 2 by {
      assert "2"[..0] == [];
    }
    BareHexPrefixIsNaN();
  }

  /** One page of a listing together with the page and size it was read with. */
  datatype Listing<+T> = Listing(data: seq<T>, page: int, limit: int)

  function Min(a: int, b: int): int
  {
    if a <= b then a else b
  }

  /** The offset a page starts at: the items of the pages before it. */
  function Skip(page: int, limit: int): (n: int)
    requires page >= 1 && limit >= 1
    ensures n >= 0
    decreases page
  {
    if page == 1 then 0 else Skip(page - 1, limit) + limit
  }

  /** The offset of a page is `(page - 1) * limit`. */
  lemma {:induction false} SkipIsProduct(page: int, limit: int)
    requires page >= 1 && limit >= 1
    ensures Skip(page, limit) == (page - 1) * limit
    decreases page
  {
    if page > 1 {
      SkipIsProduct(page - 1, limit);
    }
  }

  /** Prisma's `skip: (page - 1) * limit, take: limit` on an ordered result. */
  function Window<T>(s: seq<T>, page: int, limit: int): (r: seq<T>)
    requires page >= 1 && limit >= 1
    ensures |r| <= limit
    ensures |r| == Min(limit, |s| - Skip(page, limit)) || (|r| == 0 && Skip(page, limit) >= |s|)
    ensures forall i :: 0 <= i < |r| ==> Skip(page, limit) + i < |s| && r[i] == s[Skip(page, limit) + i]
  {
    var skip := Skip(page, limit);
    if skip >= |s| then []
    else s[skip..Min(skip + limit, |s|)]
  }

  /** Pages 1 to k, one after the other. */
  function FirstPages<T>(s: seq<T>, k: nat, limit: int): seq<T>
    requires limit >= 1
  {
    if k == 0 then [] else FirstPages(s, k - 1, limit) + Window(s, k, limit)
  }

  /** Consecutive pages neither overlap nor leave gaps: pages 1..k are the first k*limit items. */
  lemma {:induction false} FirstPagesArePrefix<T>(s: seq<T>, k: nat, limit: int)
    requires limit >= 1
    ensures FirstPages(s, k, limit) == s[..Min(k * limit, |s|)]
  {
    if k > 0 {
      FirstPagesArePrefix(s, k - 1, limit);
      WindowIsSlice(s, k, limit);
      PrefixThenSlice(s, Min((k - 1) * limit, |s|), Min(k * limit, |s|));
    }
  }

  /** A prefix followed by the slice right after it is the longer prefix. */
  lemma PrefixThenSlice<T>(s: seq<T>, lo: int, hi: int)
    requires 0 <= lo <= hi <= |s|
    ensures s[..lo] + s[lo..hi] == s[..hi]
  {
  }

  /** Page k is the slice between the (k-1)-th and the k-th multiple of the limit. */
  lemma WindowIsSlice<T>(s: seq<T>, k: nat, limit: int)
    requires k >= 1 && limit >= 1
    ensures 0 <= Min((k - 1) * limit, |s|) <= Min(k * limit, |s|)
    ensures Window(s, k, limit) == s[Min((k - 1) * limit, |s|)..Min(k * limit, |s|)]
  {
    var m := (k - 1) * limit;
    assert m + limit == k * limit;
    SkipIsProduct(k, limit);
  }

  /** A page of a list ordered by strictly increasing `key` is ordered the same way. */
  lemma WindowKeepsAscending<T>(s: seq<T>, key: T -> int, page: int, limit: int)
    requires page >= 1 && limit >= 1
    requires forall i, j :: 0 <= i < j < |s| ==> key(s[i]) < key(s[j])
    ensures var r := Window(s, page, limit); forall i, j :: 0 <= i < j < |r| ==> key(r[i]) < key(r[j])
  {
    var r := Window(s, page, limit);
    var skip := Skip(page, limit);
    forall i, j | 0 <= i < j < |r| ensures key(r[i]) < key(r[j]) {
      assert r[i] == s[skip + i] && r[j] == s[skip + j];
    }
  }

  /** A page of a list ordered by strictly decreasing `key` is ordered the same way. */
  lemma WindowKeepsDescending<T>(s: seq<T>, key: T -> int, page: int, limit: int)
    requires page >= 1 && limit >= 1
    requires forall i, j :: 0 <= i < j < |s| ==> key(s[i]) > key(s[j])
    ensures var r := Window(s, page, limit); forall i, j :: 0 <= i < j < |r| ==> key(r[i]) > key(r[j])
  {
    var r := Window(s, page, limit);
    var skip := Skip(page, limit);
    forall i, j | 0 <= i < j < |r| ensures key(r[i]) > key(r[j]) {
      assert r[i] == s[skip + i] && r[j] == s[skip + j];
    }
  }

  /** Every item of a page is an item of the list. */
  lemma WindowKeeps<T>(s: seq<T>, p: T -> bool, page: int, limit: int)
    requires page >= 1 && limit >= 1
    requires forall i :: 0 <= i < |s| ==> p(s[i])
    ensures var r := Window(s, page, limit); forall i :: 0 <= i < |r| ==> p(r[i])
  {
    var r := Window(s, page, limit);
    forall i | 0 <= i < |r| ensures p(r[i]) {
      assert r[i] == s[Skip(page, limit) + i];
    }
  }
}

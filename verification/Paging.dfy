/**
  Reading a whole directory by repeated ListDirOp requests, each starting at the
  last name of the page before. The start is inclusive, so every later page opens
  with a repeated entry, which the reader drops.
 */
module Paging {
  import opened ByteStrings
  import opened KvTypes
  import opened TxnStore
  import opened Protocol
  import opened Listing

  // ------------------------------------------------------ what has_more says

  /**
    has_more compares with the limit as sent. For a positive limit it says whether at
    least that many entries were there to list, so a false one means all were returned.
   */
  lemma HasMoreForPositiveLimit(page: seq<Bytes>, able: set<Bytes>, limit: int)
    requires limit > 0 && FirstOf(page, able, EffectiveLimit(limit))
    ensures |page| == limit <==> |able| >= limit
    ensures |page| != limit ==> forall n :: n in able ==> n in page
  {
    FirstOfSize(page, able, limit);
  }

  /**
    For a limit left at zero or negative the default applies to the page but not to
    has_more: it is set only for limit zero and an empty listing, and it is false
    while entries are left exactly when the directory holds more than the default.
   */
  lemma HasMoreForDefaultLimit(page: seq<Bytes>, able: set<Bytes>, limit: int)
    requires limit <= 0 && FirstOf(page, able, EffectiveLimit(limit))
    ensures |page| == limit <==> limit == 0 && able == {}
    ensures (exists n :: n in able && n !in page) <==> |able| > DEFAULT_LIMIT
  {
    FirstOfSize(page, able, DEFAULT_LIMIT);
    AscendingDistinctSize(page);
    var P := set n | n in page;
    var rest := able - P;
    assert able == P + rest && P !! rest;
    assert |rest| == |able| - |page|;
    if |able| > DEFAULT_LIMIT {
      var n :| n in rest;
      assert n in able && n !in page;
    } else {
      assert rest == {};
      assert forall n :: n in able ==> n in P;
    }
  }

  // ------------------------------------------------------------ page by page

  ghost function From(names: set<Bytes>, start: Bytes): set<Bytes> {
    set n | n in names && !Less(n, start)
  }

  function Last(names: seq<Bytes>): Bytes
    requires |names| > 0
  {
    names[|names| - 1]
  }

  /** The names read so far: in order, all still in the directory, none of the lasting ones skipped. */
  ghost predicate Progress(lasting: set<Bytes>, now: set<Bytes>, got: seq<Bytes>, done: bool) {
    && Ascending(got)
    && (forall n :: n in got ==> n in now)
    && (forall n :: n in lasting && n !in got ==> !done && forall g :: g in got ==> Less(g, n))
  }

  lemma LaterPageStartsWithRepeat(now: set<Bytes>, start: Bytes, page: seq<Bytes>, limit: nat)
    requires start in now && limit >= 1 && FirstOf(page, From(now, start), limit)
    ensures |page| > 0 && page[0] == start
  {
    LessIrreflexive(start);
    assert start in From(now, start);
    assert |page| > 0;
    assert page[0] in page && page[0] in From(now, start);
    assert start in page;
    var i :| 0 <= i < |page| && page[i] == start;
    assert i > 0 ==> Less(page[0], page[i]);
  }

  lemma FirstPageProgress(lasting: set<Bytes>, now: set<Bytes>, page: seq<Bytes>, limit: nat)
    requires lasting <= now && FirstOf(page, now, limit)
    ensures Progress(lasting, now, page, |page| < limit)
  {
  }

  lemma NextPageProgress(lasting: set<Bytes>, before: set<Bytes>, now: set<Bytes>, got: seq<Bytes>, page: seq<Bytes>, limit: nat)
    requires |got| > 0 && limit >= 1
    requires Progress(lasting, before, got, false) && before <= now && lasting <= now
    requires FirstOf(page, From(now, Last(got)), limit)
    ensures |page| > 0 && page[0] == Last(got)
    ensures Progress(lasting, now, got + page[1..], |page| < limit)
    ensures Last(got + page[1..]) == Last(page)
  {
    var start := Last(got);
    assert start in got;
    LaterPageStartsWithRepeat(now, start, page, limit);
    OrderLaws();
    var all := got + page[1..];
    forall i, j | 0 <= i < j < |all| ensures Less(all[i], all[j]) {
      if j < |got| {
      } else if i < |got| {
        assert Less(start, page[j - |got| + 1]);
        assert i == |got| - 1 || Less(got[i], start);
      }
    }
    assert forall g :: g in page[1..] ==> g in page;
    forall n | n in all ensures n in now { assert n in got || n in page; }
    forall n | n in lasting && n !in all
      ensures |page| == limit && forall g :: g in all ==> Less(g, n)
    {
      assert n !in got && Less(start, n);
      assert n in From(now, start);
      forall i | 0 <= i < |page| ensures page[i] != n {
        assert i > 0 ==> page[1..][i - 1] == page[i];
        assert i > 0 ==> page[i] in all;
      }
    }
  }

  // ------------------------------------- a directory that grows between pages

  /** Where page i starts: at the last name of the page before. */
  ghost function StartOf(pages: seq<seq<Bytes>>, i: nat): Bytes
    requires i <= |pages|
  {
    if i == 0 || pages[i - 1] == [] then [] else Last(pages[i - 1])
  }

  /** pages[i] was listed when the directory held dirs[i]; every page but the last was full. */
  ghost predicate PagesOf(dirs: seq<set<Bytes>>, pages: seq<seq<Bytes>>, limit: nat) {
    && |dirs| == |pages|
    && (forall i :: 0 <= i < |pages| ==> FirstOf(pages[i], From(dirs[i], StartOf(pages, i)), limit))
    && (forall i :: 0 <= i < |pages| - 1 ==> |pages[i]| == limit > 0)
    && (forall i, j :: 0 <= i < j < |dirs| ==> dirs[i] <= dirs[j])
  }

  lemma EarlierPages(dirs: seq<set<Bytes>>, pages: seq<seq<Bytes>>, limit: nat, n: nat)
    requires PagesOf(dirs, pages, limit) && n <= |pages|
    ensures PagesOf(dirs[..n], pages[..n], limit)
  {
    forall i | 0 <= i < n ensures FirstOf(pages[..n][i], From(dirs[..n][i], StartOf(pages[..n], i)), limit) {
      assert StartOf(pages[..n], i) == StartOf(pages, i);
    }
  }

  lemma OnlyPage(dirs: seq<set<Bytes>>, pages: seq<seq<Bytes>>, limit: nat)
    requires PagesOf(dirs, pages, limit) && |pages| == 1
    ensures FirstOf(pages[0], dirs[0], limit)
  {
    assert From(dirs[0], []) == dirs[0];
  }

  lemma LastPage(dirs: seq<set<Bytes>>, pages: seq<seq<Bytes>>, limit: nat, n: nat)
    requires PagesOf(dirs, pages, limit) && |pages| == n + 1 && n > 0
    ensures |pages[n - 1]| == limit > 0 && FirstOf(pages[n], From(dirs[n], Last(pages[n - 1])), limit)
    ensures dirs[0] <= dirs[n] && dirs[n - 1] <= dirs[n]
  {
    assert FirstOf(pages[n], From(dirs[n], StartOf(pages, n)), limit);
  }

  /** All pages joined, each later one without its repeated first entry. */
  ghost function Joined(pages: seq<seq<Bytes>>): seq<Bytes> {
    if |pages| == 0 then []
    else if |pages| == 1 then pages[0]
    else Joined(pages[..|pages| - 1]) + (if pages[|pages| - 1] == [] then [] else pages[|pages| - 1][1..])
  }

  /** The state of a reader after some pages. */
  ghost predicate ReadPages(first: set<Bytes>, now: set<Bytes>, pages: seq<seq<Bytes>>, limit: nat)
    requires |pages| > 0
  {
    && Progress(first, now, Joined(pages), |pages[|pages| - 1]| < limit)
    && (pages[|pages| - 1] != [] ==> Joined(pages) != [] && Last(Joined(pages)) == Last(pages[|pages| - 1]))
  }

  lemma OneMorePage(first: set<Bytes>, before: set<Bytes>, now: set<Bytes>, pages: seq<seq<Bytes>>, n: nat, limit: nat)
    requires |pages| == n + 1 && n > 0 && ReadPages(first, before, pages[..n], limit) && before <= now && first <= now
    requires |pages[n - 1]| == limit > 0 && FirstOf(pages[n], From(now, Last(pages[n - 1])), limit)
    ensures ReadPages(first, now, pages, limit)
  {
    NextPageProgress(first, before, now, Joined(pages[..n]), pages[n], limit);
  }

  /**
    Paging while entries are being added: after any number of pages the names read
    are strictly ascending, so none is read twice; all are in the directory; and a
    name present from the first page on is read unless it lies beyond a full last page.
   */
  lemma {:induction false} PagingWhileGrowing(dirs: seq<set<Bytes>>, pages: seq<seq<Bytes>>, limit: nat)
    requires PagesOf(dirs, pages, limit) && |pages| > 0
    ensures ReadPages(dirs[0], dirs[|dirs| - 1], pages, limit)
    decreases |pages|
  {
    var n := |pages| - 1;
    if n == 0 {
      OnlyPage(dirs, pages, limit);
      FirstPageProgress(dirs[0], dirs[0], pages[0], limit);
    } else {
      EarlierPages(dirs, pages, limit, n);
      PagingWhileGrowing(dirs[..n], pages[..n], limit);
      LastPage(dirs, pages, limit, n);
      OneMorePage(dirs[0], dirs[n - 1], dirs[n], pages, n, limit);
    }
  }

  // ----------------------------------------------- a directory left unchanged

  lemma ListableFrom(names: set<Bytes>, start: Bytes)
    ensures Listable(names, start) == From(Listable(names, []), start)
  {
  }

  /** What has been read of an unchanged directory; done says all of it. */
  ghost predicate ReadSoFar(db: Db, id: U64, ents: seq<DEnt>, done: bool) {
    && Progress(Listable(Names(db, id), []), Listable(Names(db, id), []), EntNames(ents), done)
    && forall i :: 0 <= i < |ents| ==> ShowsDent(db, id, ents[i])
  }

  /** Every listable entry once, in order, as stored. */
  ghost predicate IsWholeListing(db: Db, id: U64, ents: seq<DEnt>) {
    && Ascending(EntNames(ents))
    && (forall n :: n in EntNames(ents) <==> n in Listable(Names(db, id), []))
    && (forall i :: 0 <= i < |ents| ==> ShowsDent(db, id, ents[i]))
  }

  /** A request for a page after the first cannot be refused. */
  method ReadLaterPage(store: KvStore, req: ListRequest) returns (page: seq<DEnt>, more: bool)
    requires DentsWellNamed(store.db) && req.limit > 0 && req.startAfter != []
    requires Allowed(store.db, req.id, req.uid, req.gid)
    modifies store`version
    ensures IsPage(store.db, req.id, req.startAfter, req.limit, page) && more == (|page| == req.limit)
  {
    var resp := ListDir(store, req);
    page, more := resp.ents, resp.hasMore;
  }

  /** Goes on from a full first page to the end of the directory. */
  method ReadRest(store: KvStore, id: U64, limit: int, uid: int, gid: int, first: seq<DEnt>) returns (ents: seq<DEnt>)
    requires DentsWellNamed(store.db) && limit >= 2 && Allowed(store.db, id, uid, gid)
    requires |first| > 0 && first[|first| - 1].name != [] && ReadSoFar(store.db, id, first, false)
    modifies store`version
    ensures ReadSoFar(store.db, id, ents, true)
  {
    ents := first;
    var last, more := first[|first| - 1].name, true;
    ghost var db := store.db;
    while more
      invariant store.db == db && ReadSoFar(db, id, ents, !more)
      invariant more ==> |ents| > 0 && last == ents[|ents| - 1].name && last != []
      decreases more, |Listable(Names(db, id), [])| - |ents|
    {
      var page;
      page, more := ReadLaterPage(store, ListRequest(id, last, limit, uid, gid));
      LaterPage(db, id, ents, page, limit);
      ents, last := ents + page[1..], page[|page| - 1].name;
    }
  }

  /** Reads a directory to its end. */
  method ListAll(store: KvStore, id: U64, limit: int, uid: int, gid: int) returns (r: Option<seq<DEnt>>)
    requires DentsWellNamed(store.db) && limit >= 2
    modifies store`version
    ensures r.Some? <==> Allowed(store.db, id, uid, gid) && !ReadFails(store.db, ListRequest(id, [], limit, uid, gid))
    ensures r.Some? ==> IsWholeListing(store.db, id, r.value)
  {
    var resp := ListDir(store, ListRequest(id, [], limit, uid, gid));
    if resp.Refused? {
      return None;
    }
    FirstPage(store.db, id, resp.ents, limit);
    var ents := resp.ents;
    if resp.hasMore {
      ents := ReadRest(store, id, limit, uid, gid, ents);
    }
    return Some(ents);
  }

  lemma FirstPage(db: Db, id: U64, ents: seq<DEnt>, limit: int)
    requires limit >= 2 && IsPage(db, id, [], limit, ents)
    ensures ReadSoFar(db, id, ents, |ents| < limit)
    ensures |ents| == limit ==> ents[limit - 1].name != []
  {
    FirstPageProgress(Listable(Names(db, id), []), Listable(Names(db, id), []), EntNames(ents), limit);
    if |ents| == limit { assert Less(EntNames(ents)[0], EntNames(ents)[limit - 1]); }
  }

  lemma NamesOfJoin(ents: seq<DEnt>, page: seq<DEnt>)
    requires |page| > 0
    ensures EntNames(ents + page[1..]) == EntNames(ents) + EntNames(page)[1..]
  {
  }

  lemma LaterPage(db: Db, id: U64, ents: seq<DEnt>, page: seq<DEnt>, limit: int)
    requires limit >= 2 && |ents| > 0 && IsPage(db, id, ents[|ents| - 1].name, limit, page)
    requires ReadSoFar(db, id, ents, false)
    ensures |page| > 0 && ReadSoFar(db, id, ents + page[1..], |page| < limit)
    ensures |ents + page[1..]| <= |Listable(Names(db, id), [])|
    ensures page[|page| - 1].name == (ents + page[1..])[|ents + page[1..]| - 1].name
    ensures |page| == limit ==> page[limit - 1].name != []
  {
    var all := Listable(Names(db, id), []);
    ListableFrom(Names(db, id), ents[|ents| - 1].name);
    NextPageProgress(all, all, all, EntNames(ents), EntNames(page), limit);
    NamesOfJoin(ents, page);
    ProgressBounded(all, EntNames(ents + page[1..]));
    if |page| == limit { assert Less(EntNames(page)[0], EntNames(page)[limit - 1]); }
  }

  lemma ProgressBounded(all: set<Bytes>, got: seq<Bytes>)
    requires Ascending(got) && forall n :: n in got ==> n in all
    ensures |got| <= |all|
  {
    AscendingDistinctSize(got);
    var G := set n | n in got;
    if G != all { assert G < all; ProperSubsetSmaller(G, all); }
  }

  /** With a limit of one, a page that starts at an entry is that entry again, and has_more stays set. */
  lemma LimitOneNeverAdvances(now: set<Bytes>, start: Bytes, page: seq<Bytes>)
    requires start in now && FirstOf(page, From(now, start), EffectiveLimit(1))
    ensures page == [start] && |page| == 1
  {
    LaterPageStartsWithRepeat(now, start, page, 1);
  }

  // ------------------------------------------------------------ UTF-8 names

  predicate Tail(b: Byte) { 0x80 <= b <= 0xBF }

  /** Section 4 of RFC 3629. */
  predicate Utf8(s: Bytes)
    decreases |s|
  {
    |s| == 0 ||
    (s[0] <= 0x7F && Utf8(s[1..])) ||
    (|s| >= 2 && 0xC2 <= s[0] <= 0xDF && Tail(s[1]) && Utf8(s[2..])) ||
    (|s| >= 3 && 0xE0 <= s[0] <= 0xEF && Tail(s[1]) && Tail(s[2]) &&
     (s[0] == 0xE0 ==> s[1] >= 0xA0) && (s[0] == 0xED ==> s[1] <= 0x9F) && Utf8(s[3..])) ||
    (|s| >= 4 && 0xF0 <= s[0] <= 0xF4 && Tail(s[1]) && Tail(s[2]) && Tail(s[3]) &&
     (s[0] == 0xF0 ==> s[1] >= 0x90) && (s[0] == 0xF4 ==> s[1] <= 0x8F) && Utf8(s[4..]))
  }

  /** The end bound hides exactly the names whose first byte is FF, and no UTF-8 name has one. */
  lemma NothingHiddenFromUtf8(names: set<Bytes>)
    ensures forall n :: n in names ==> (n in Listable(names, []) <==> n == [] || n[0] < 0xFF)
    ensures (forall n :: n in names ==> Utf8(n)) ==> Listable(names, []) == names
  {
    forall n | n in names ensures n in Listable(names, []) <==> n == [] || n[0] < 0xFF {
      assert |n| > 0 && n[0] == 0xFF ==> !Less(n[1..], END[1..]);
    }
  }
}

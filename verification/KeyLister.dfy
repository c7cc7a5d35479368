/** Listing keys page by page (internal/service/key_lister.go; the list statement is in
    internal/constants/queries.go).  The page token is the creation time of the last key of a full
    page; the next page starts strictly below it. */
module KeyLister {
  import opened Domain
  import opened KeyTable

  const DEFAULT_PAGE_SIZE: int := 100

  // ---------------------------------------------------------------- the statement

  /** DISTINCT ON (id) ... ORDER BY id, version DESC: the latest row of every id. */
  function LatestKeys(t: Table): set<Key> {
    set k | k in t && Latest(t, k.0) == Some(k.1) :: Key(k.0, k.1, t[k])
  }

  predicate Below(k: Key, cursor: Option<Time>) {
    cursor.None? || k.row.createdAt < cursor.value
  }

  /** The answers the database may give: ORDER BY created_at DESC LIMIT n leaves the order of equal
      times, and so which of them make the page, open. */
  ghost predicate IsPage(all: set<Key>, cursor: Option<Time>, limit: int, page: seq<Key>) {
    && |page| <= limit
    && (forall i :: 0 <= i < |page| ==> page[i] in all && Below(page[i], cursor))
    && (forall i, j :: 0 <= i < j < |page| ==> page[i] != page[j])
    && (forall i, j :: 0 <= i < j < |page| ==> page[i].row.createdAt >= page[j].row.createdAt)
    && (forall k :: k in all && Below(k, cursor) && k !in page ==>
          |page| == limit && forall i :: 0 <= i < |page| ==> k.row.createdAt <= page[i].row.createdAt)
  }

  // ---------------------------------------------------------------- the handler

  datatype Token = NoToken | Malformed | Cursor(time: Time)

  datatype ListError = InvalidInput | RepositoryError

  datatype Response = Response(keys: seq<Metadata>, next: Option<Time>)

  function NextToken(page: seq<Key>, limit: int): Option<Time> {
    if |page| == limit && page != [] then Some(page[|page| - 1].row.createdAt) else None
  }

  method ListKeys(token: Token, pageSize: int, repo: (Option<Time>, int) -> Result<seq<Key>, ListError>)
    returns (r: Result<Response, ListError>)
    ensures token.Malformed? ==> r == Err(InvalidInput)
    ensures !token.Malformed? ==>
      var limit := if pageSize == 0 then 100 else pageSize;
      var answer := repo(if token.Cursor? then Some(token.time) else None, limit);
      if answer.Err? then r == Err(answer.error)
      else
        && r.Ok? && r.value.next == NextToken(answer.value, limit)
        && |r.value.keys| == |answer.value|
        && forall i :: 0 <= i < |answer.value| ==> r.value.keys[i] == answer.value[i].row.metadata
  {
    var cursor := None;
    if token.Malformed? {
      return Err(InvalidInput);
    }
    if token.Cursor? {
      cursor := Some(token.time);
    }
    var limit := pageSize;
    if limit == 0 {
      limit := DEFAULT_PAGE_SIZE;
    }
    var answer := repo(cursor, limit);
    if answer.Err? {
      return Err(answer.error);
    }
    var keys := answer.value;
    var metadata := [];
    for i := 0 to |keys|
      invariant |metadata| == i
      invariant forall j :: 0 <= j < i ==> metadata[j] == keys[j].row.metadata
    {
      metadata := metadata + [keys[i].row.metadata];
    }
    var next := None;
    if |keys| == limit && keys != [] {
      next := Some(keys[|keys| - 1].row.createdAt);
    }
    return Ok(Response(metadata, next));
  }

  // ---------------------------------------------------------------- walking the pages

  /** The cursor with which page `i` of a walk is asked for. */
  ghost function CursorAt(pages: seq<seq<Key>>, i: int, limit: int): Option<Time>
    requires 0 <= i <= |pages|
  {
    if i == 0 then None else NextToken(pages[i - 1], limit)
  }

  /** Page `i` answers the token that came with the page before it. */
  ghost predicate Follows(all: set<Key>, limit: int, pages: seq<seq<Key>>, i: int)
    requires 0 <= i < |pages|
  {
    && IsPage(all, CursorAt(pages, i, limit), limit, pages[i])
    && (i > 0 ==> NextToken(pages[i - 1], limit).Some?)
  }

  /** Following next-page tokens on an unchanging store, from the first page on. */
  ghost predicate Walk(all: set<Key>, limit: int, pages: seq<seq<Key>>) {
    forall i :: 0 <= i < |pages| ==> Follows(all, limit, pages, i)
  }

  /** ... until a page comes without a token. */
  ghost predicate CompleteWalk(all: set<Key>, limit: int, pages: seq<seq<Key>>) {
    Walk(all, limit, pages) && pages != [] && NextToken(pages[|pages| - 1], limit) == None
  }

  ghost predicate LastOfFullPage(pages: seq<seq<Key>>, limit: int, i: int, time: Time) {
    0 <= i < |pages| && NextToken(pages[i], limit) == Some(time)
  }

  /** Everything on a later page is strictly older than everything on an earlier one. */
  lemma {:induction false} LaterPagesAreOlder(all: set<Key>, limit: int, pages: seq<seq<Key>>, i: int, j: int)
    requires limit >= 1 && Walk(all, limit, pages) && 0 <= i < j < |pages|
    ensures forall a, b :: a in pages[i] && b in pages[j] ==> a.row.createdAt > b.row.createdAt
    decreases j - i
  {
    assert Follows(all, limit, pages, j);
    var last := pages[j - 1][|pages[j - 1]| - 1];
    assert Follows(all, limit, pages, j - 1);
    assert forall b :: b in pages[j] ==> b.row.createdAt < last.row.createdAt;
    if i == j - 1 {
      assert forall a :: a in pages[i] ==> a.row.createdAt >= last.row.createdAt;
    } else {
      LaterPagesAreOlder(all, limit, pages, i, j - 1);
      assert last in pages[j - 1];
    }
  }

  /** Keys come in non-increasing order of creation and no key comes twice. */
  lemma WalkIsOrderedWithoutRepeats(all: set<Key>, limit: int, pages: seq<seq<Key>>, i: int, x: int, j: int, y: int)
    requires limit >= 1 && Walk(all, limit, pages)
    requires 0 <= i <= j < |pages| && 0 <= x < |pages[i]| && 0 <= y < |pages[j]| && (i < j || x < y)
    ensures pages[i][x] != pages[j][y]
    ensures pages[i][x].row.createdAt >= pages[j][y].row.createdAt
  {
    if i < j {
      LaterPagesAreOlder(all, limit, pages, i, j);
      assert pages[i][x] in pages[i] && pages[j][y] in pages[j];
    } else {
      assert Follows(all, limit, pages, i);
    }
  }

  // ---------------------------------------------------------------- termination

  function Elements(page: seq<Key>): set<Key> {
    set k | k in page
  }

  function Seen(pages: seq<seq<Key>>): set<Key> {
    if pages == [] then {}
    else Seen(pages[..|pages| - 1]) + Elements(pages[|pages| - 1])
  }

  lemma {:induction false} DistinctCount(page: seq<Key>)
    requires forall i, j :: 0 <= i < j < |page| ==> page[i] != page[j]
    ensures |Elements(page)| == |page|
    decreases |page|
  {
    if page != [] {
      var init := page[..|page| - 1];
      var last := page[|page| - 1];
      DistinctCount(init);
      assert page == init + [last];
      assert Elements(page) == Elements(init) + {last};
      assert last !in init;
    }
  }

  lemma {:induction false} SeenIn(pages: seq<seq<Key>>, k: Key)
    ensures k in Seen(pages) <==> exists i :: 0 <= i < |pages| && k in pages[i]
    decreases |pages|
  {
    if pages != [] {
      var init := pages[..|pages| - 1];
      SeenIn(init, k);
      if k in Seen(pages) {
        if k in Seen(init) {
          var i :| 0 <= i < |init| && k in init[i];
          assert k in pages[i];
        } else {
          assert k in pages[|pages| - 1];
        }
      }
      if i :| 0 <= i < |pages| && k in pages[i] {
        if i < |init| { assert k in init[i]; }
      }
    }
  }

  lemma NewOnItsPage(all: set<Key>, limit: int, pages: seq<seq<Key>>, n: int)
    requires limit >= 1 && Walk(all, limit, pages) && 0 <= n < |pages|
    ensures Seen(pages[..n]) !! Elements(pages[n])
  {
    forall k | k in pages[n] ensures k !in Seen(pages[..n]) {
      SeenIn(pages[..n], k);
      forall i | 0 <= i < n ensures k !in pages[i] { LaterPagesAreOlder(all, limit, pages, i, n); }
    }
  }

  /** A full page adds `limit` keys to those seen. */
  lemma FullPageAdds(all: set<Key>, limit: int, pages: seq<seq<Key>>, n: nat)
    requires limit >= 1 && Walk(all, limit, pages) && n < |pages| && NextToken(pages[n], limit).Some?
    ensures |Seen(pages[..n + 1])| == |Seen(pages[..n])| + limit
    ensures Seen(pages[..n + 1]) == Seen(pages[..n]) + Elements(pages[n]) && Elements(pages[n]) <= all
  {
    assert Follows(all, limit, pages, n);
    DistinctCount(pages[n]);
    NewOnItsPage(all, limit, pages, n);
    assert pages[..n + 1][..n] == pages[..n];
  }

  /** Pages that carry a token are full, so `n` of them hold `n * limit` different keys. */
  lemma {:induction false} FullPagesHold(all: set<Key>, limit: int, pages: seq<seq<Key>>, n: nat)
    requires limit >= 1 && Walk(all, limit, pages) && n <= |pages|
    requires forall i :: 0 <= i < n ==> NextToken(pages[i], limit).Some?
    ensures |Seen(pages[..n])| == n * limit && Seen(pages[..n]) <= all
    decreases n
  {
    if n > 0 {
      FullPagesHold(all, limit, pages, n - 1);
      FullPageAdds(all, limit, pages, n - 1);
      OneMoreTime(n, limit);
    }
  }

  lemma OneMoreTime(n: int, limit: int)
    ensures n * limit == (n - 1) * limit + limit
  {
  }

  /** The walk ends: all its pages but the last are full, so with n keys there are at most
      n / limit + 1 pages. */
  lemma WalkTerminates(all: set<Key>, limit: int, pages: seq<seq<Key>>)
    requires limit >= 1 && Walk(all, limit, pages)
    ensures (|pages| - 1) * limit <= |all|
  {
    if pages != [] {
      var n := |pages| - 1;
      forall i | 0 <= i < n ensures NextToken(pages[i], limit).Some? { assert Follows(all, limit, pages, i + 1); }
      FullPagesHold(all, limit, pages, n);
      SubsetSize(Seen(pages[..n]), all);
    }
  }

  lemma {:induction false} SubsetSize(a: set<Key>, b: set<Key>)
    requires a <= b
    ensures |a| <= |b|
    decreases |a|
  {
    if a != {} {
      var x :| x in a;
      SubsetSize(a - {x}, b - {x});
    }
  }

  // ---------------------------------------------------------------- completeness

  /** A key that is on none of the first `n` pages and ties with no cursor among them is still ahead. */
  lemma {:induction false} StillAhead(all: set<Key>, limit: int, pages: seq<seq<Key>>, k: Key, n: int)
    requires limit >= 1 && Walk(all, limit, pages) && k in all && 0 <= n < |pages|
    requires forall i :: 0 <= i < n ==> k !in pages[i] && !LastOfFullPage(pages, limit, i, k.row.createdAt)
    ensures Below(k, CursorAt(pages, n, limit))
    decreases n
  {
    if n > 0 {
      StillAhead(all, limit, pages, k, n - 1);
      var page := pages[n - 1];
      assert Follows(all, limit, pages, n - 1);
      assert k !in page;
      assert Follows(all, limit, pages, n);
      assert k.row.createdAt <= page[|page| - 1].row.createdAt;
      assert !LastOfFullPage(pages, limit, n - 1, k.row.createdAt);
    }
  }

  lemma UntiedIsListed(all: set<Key>, limit: int, pages: seq<seq<Key>>, k: Key)
    requires limit >= 1 && CompleteWalk(all, limit, pages) && k in all
    requires forall i :: LastOfFullPage(pages, limit, i, k.row.createdAt) ==> k in pages[i]
    ensures exists i :: 0 <= i < |pages| && k in pages[i]
  {
    var n := |pages| - 1;
    if forall i :: 0 <= i < n ==> k !in pages[i] {
      StillAhead(all, limit, pages, k, n);
      assert Follows(all, limit, pages, n);
      assert k in pages[n];
    }
  }

  /** What a complete walk omits, exactly: the keys whose creation time ties with the last key of
      some full page they are not on. */
  lemma OmittedIff(all: set<Key>, limit: int, pages: seq<seq<Key>>, k: Key)
    requires limit >= 1 && CompleteWalk(all, limit, pages) && k in all
    ensures (forall i :: 0 <= i < |pages| ==> k !in pages[i]) <==>
      exists i :: LastOfFullPage(pages, limit, i, k.row.createdAt) && k !in pages[i]
  {
    if forall i :: LastOfFullPage(pages, limit, i, k.row.createdAt) ==> k in pages[i] {
      UntiedIsListed(all, limit, pages, k);
    } else {
      var i :| LastOfFullPage(pages, limit, i, k.row.createdAt) && k !in pages[i];
      forall j | 0 <= j < |pages| ensures k !in pages[j] {
        TieIsOnNoOtherPage(all, limit, pages, k, i, j);
      }
    }
  }

  lemma TieIsOnNoOtherPage(all: set<Key>, limit: int, pages: seq<seq<Key>>, k: Key, i: int, j: int)
    requires limit >= 1 && Walk(all, limit, pages) && 0 <= j < |pages|
    requires LastOfFullPage(pages, limit, i, k.row.createdAt) && k !in pages[i]
    ensures k !in pages[j]
  {
    var last := pages[i][|pages[i]| - 1];
    assert last in pages[i];
    if j < i { LaterPagesAreOlder(all, limit, pages, j, i); }
    if i < j { LaterPagesAreOlder(all, limit, pages, i, j); }
  }

  /** With distinct creation times a complete walk lists every key, and lists it once. */
  lemma DistinctTimesListAll(all: set<Key>, limit: int, pages: seq<seq<Key>>, k: Key)
    requires limit >= 1 && CompleteWalk(all, limit, pages) && k in all
    requires forall a, b :: a in all && b in all && a.row.createdAt == b.row.createdAt ==> a == b
    ensures exists i :: 0 <= i < |pages| && k in pages[i]
    ensures forall i, j :: 0 <= i < |pages| && 0 <= j < |pages| && k in pages[i] && k in pages[j] ==> i == j
  {
    forall i | LastOfFullPage(pages, limit, i, k.row.createdAt) ensures k in pages[i] {
      assert Follows(all, limit, pages, i);
      var last := pages[i][|pages[i]| - 1];
      assert last in all && last.row.createdAt == k.row.createdAt;
    }
    UntiedIsListed(all, limit, pages, k);
    forall i, j | 0 <= i < j < |pages| ensures !(k in pages[i] && k in pages[j]) {
      LaterPagesAreOlder(all, limit, pages, i, j);
    }
  }

  // ---------------------------------------------------------------- what the store alone decides

  /** The keys a cursor leaves to list. */
  function Rest(all: set<Key>, cursor: Option<Time>): set<Key> { set k | k in all && Below(k, cursor) }

  function Newer(rest: set<Key>, c: Time): set<Key> { set k | k in rest && k.row.createdAt > c }

  function AtLeast(rest: set<Key>, c: Time): set<Key> { set k | k in rest && k.row.createdAt >= c }

  function Older(rest: set<Key>, c: Time): set<Key> { set k | k in rest && k.row.createdAt < c }

  /** A page of `limit` keys ends at time `c`: fewer keys are newer, but with those of that very time
      there are enough. */
  predicate IsBoundary(rest: set<Key>, limit: int, c: Time) {
    |Newer(rest, c)| < limit <= |AtLeast(rest, c)|
  }

  lemma {:induction false} NewestOf(rest: set<Key>) returns (newest: Key)
    requires rest != {}
    ensures newest in rest && forall k :: k in rest ==> k.row.createdAt <= newest.row.createdAt
    decreases |rest|
  {
    var x :| x in rest;
    newest := x;
    if rest != {x} {
      assert rest == {x} + (rest - {x});
      var y := NewestOf(rest - {x});
      newest := if y.row.createdAt > x.row.createdAt then y else x;
      assert forall k :: k in rest ==> k == x || k in rest - {x};
    }
  }

  /** There is a page for every set of keys: take the newest, then a page of the others. */
  lemma {:induction false} PageExists(rest: set<Key>, limit: nat) returns (page: seq<Key>)
    ensures IsPage(rest, None, limit, page)
    decreases limit
  {
    page := [];
    if limit > 0 && rest != {} {
      var newest := NewestOf(rest);
      var others := PageExists(rest - {newest}, limit - 1);
      page := [newest] + others;
      PutInFront(rest, limit, newest, others);
    }
  }

  lemma PutInFront(rest: set<Key>, limit: nat, newest: Key, others: seq<Key>)
    requires limit > 0 && newest in rest && forall k :: k in rest ==> k.row.createdAt <= newest.row.createdAt
    requires IsPage(rest - {newest}, None, limit - 1, others)
    ensures IsPage(rest, None, limit, [newest] + others)
  {
    var page := [newest] + others;
    forall i, j | 0 <= i < j < |page| ensures page[i] != page[j] && page[i].row.createdAt >= page[j].row.createdAt {
      assert page[j] == others[j - 1] && others[j - 1] in rest - {newest};
      if i > 0 { assert page[i] == others[i - 1]; }
    }
    forall k | k in rest && k !in page
      ensures |page| == limit && forall i :: 0 <= i < |page| ==> k.row.createdAt <= page[i].row.createdAt
    {
      assert newest == page[0];
      assert k in rest - {newest};
      assert k !in others;
    }
  }

  lemma PageOfRest(all: set<Key>, cursor: Option<Time>, limit: int, page: seq<Key>)
    ensures IsPage(all, cursor, limit, page) <==> IsPage(Rest(all, cursor), None, limit, page)
  {
    if IsPage(Rest(all, cursor), None, limit, page) {
      forall i | 0 <= i < |page| ensures page[i] in all && Below(page[i], cursor) { assert page[i] in Rest(all, cursor); }
      forall k | k in all && Below(k, cursor) && k !in page
        ensures |page| == limit && forall i :: 0 <= i < |page| ==> k.row.createdAt <= page[i].row.createdAt
      {
        assert k in Rest(all, cursor);
      }
    }
  }

  /** A page is full exactly when there are enough keys.  Then its last time is a boundary, and it holds
      the newer keys and some of that time; otherwise it holds all there is. */
  lemma PageEnds(rest: set<Key>, limit: int, page: seq<Key>)
    requires limit >= 1 && IsPage(rest, None, limit, page)
    ensures |page| == limit <==> |rest| >= limit
    ensures |page| < limit ==> Elements(page) == rest
    ensures |page| == limit ==>
      var c := page[|page| - 1].row.createdAt;
      IsBoundary(rest, limit, c) && Newer(rest, c) <= Elements(page) <= AtLeast(rest, c)
  {
    DistinctCount(page);
    assert Elements(page) <= rest;
    if |page| < limit {
      assert forall k :: k in rest ==> k in page;
      assert Elements(page) == rest;
    } else {
      SubsetSize(Elements(page), rest);
      var last := page[|page| - 1];
      var c := last.row.createdAt;
      assert last in page;
      forall k | k in Newer(rest, c) ensures k in Elements(page) - {last} { assert k in page; }
      SubsetSize(Newer(rest, c), Elements(page) - {last});
      SubsetSize(Elements(page), AtLeast(rest, c));
    }
  }

  lemma BoundaryExists(rest: set<Key>, limit: int)
    requires 1 <= limit <= |rest|
    ensures exists c :: IsBoundary(rest, limit, c)
  {
    var page := PageExists(rest, limit);
    PageEnds(rest, limit, page);
    assert IsBoundary(rest, limit, page[|page| - 1].row.createdAt);
  }

  lemma BoundaryIsUnique(rest: set<Key>, limit: int, c: Time, d: Time)
    requires IsBoundary(rest, limit, c) && IsBoundary(rest, limit, d)
    ensures c == d
  {
    assert c < d ==> |AtLeast(rest, d)| <= |Newer(rest, c)| by {
      if c < d { SubsetSize(AtLeast(rest, d), Newer(rest, c)); }
    }
    assert d < c ==> |AtLeast(rest, c)| <= |Newer(rest, d)| by {
      if d < c { SubsetSize(AtLeast(rest, c), Newer(rest, d)); }
    }
  }

  /** The time at which a page over `rest` ends, whichever page the database gives. */
  ghost function Boundary(rest: set<Key>, limit: int): (c: Time)
    requires 1 <= limit <= |rest|
    ensures IsBoundary(rest, limit, c) && Older(rest, c) < rest
  {
    BoundaryExists(rest, limit);
    var c :| IsBoundary(rest, limit, c);
    OlderIsFewer(rest, limit, c);
    c
  }

  lemma OlderIsFewer(rest: set<Key>, limit: int, c: Time)
    requires limit >= 1 && IsBoundary(rest, limit, c)
    ensures Older(rest, c) < rest
  {
    assert AtLeast(rest, c) != {};
    var k :| k in AtLeast(rest, c);
    assert k in rest && k !in Older(rest, c);
  }

  /** Some boundary, following the pages from the newest keys down, falls inside a group of keys of one
      time.  This is a property of the stored keys and the limit alone. */
  ghost predicate SplitsTie(rest: set<Key>, limit: int)
    requires limit >= 1
    decreases rest
  {
    |rest| >= limit &&
    var c := Boundary(rest, limit);
    |AtLeast(rest, c)| > limit || SplitsTie(Older(rest, c), limit)
  }

  ghost predicate ListedFrom(pages: seq<seq<Key>>, n: int, k: Key) { exists i :: n <= i < |pages| && 0 <= i && k in pages[i] }

  /** The cursors of a walk are the boundaries. */
  lemma CursorIsBoundary(all: set<Key>, limit: int, pages: seq<seq<Key>>, n: nat)
    requires limit >= 1 && Walk(all, limit, pages) && n < |pages|
    ensures
      var rest := Rest(all, CursorAt(pages, n, limit));
      && IsPage(rest, None, limit, pages[n])
      && NextToken(pages[n], limit) == (if |rest| >= limit then Some(Boundary(rest, limit)) else None)
      && (|rest| >= limit ==> Rest(all, NextToken(pages[n], limit)) == Older(rest, Boundary(rest, limit)))
  {
    var cursor := CursorAt(pages, n, limit);
    var rest := Rest(all, cursor);
    assert Follows(all, limit, pages, n);
    PageOfRest(all, cursor, limit, pages[n]);
    PageEnds(rest, limit, pages[n]);
    if |rest| >= limit {
      var last := pages[n][|pages[n]| - 1];
      BoundaryIsUnique(rest, limit, last.row.createdAt, Boundary(rest, limit));
      assert last in rest;
    }
  }

  /** A tie split by page n leaves a key behind that no page lists. */
  lemma SplitLeavesBehind(all: set<Key>, limit: int, pages: seq<seq<Key>>, n: nat)
    returns (k: Key)
    requires limit >= 1 && Walk(all, limit, pages) && n < |pages|
    requires
      var rest := Rest(all, CursorAt(pages, n, limit));
      |rest| >= limit && |AtLeast(rest, Boundary(rest, limit))| > limit
    ensures k in Rest(all, CursorAt(pages, n, limit)) && !ListedFrom(pages, 0, k)
  {
    var rest := Rest(all, CursorAt(pages, n, limit));
    var page := pages[n];
    CursorIsBoundary(all, limit, pages, n);
    PageEnds(rest, limit, page);
    DistinctCount(page);
    var c := Boundary(rest, limit);
    k := Outside(Elements(page), AtLeast(rest, c));
    assert LastOfFullPage(pages, limit, n, k.row.createdAt);
    forall j | 0 <= j < |pages| ensures k !in pages[j] { TieIsOnNoOtherPage(all, limit, pages, k, n, j); }
  }

  lemma Outside(a: set<Key>, b: set<Key>) returns (k: Key)
    requires a <= b && |a| < |b|
    ensures k in b && k !in a
  {
    assert b == a + (b - a);
    assert |b - a| > 0;
    k :| k in b - a;
  }

  lemma SameSize(a: set<Key>, b: set<Key>)
    requires a <= b && |a| == |b|
    ensures a == b
  {
    assert |b - a| == 0;
  }

  /** Without a split, page n lists exactly the keys at or above its boundary. */
  lemma UnsplitPage(all: set<Key>, limit: int, pages: seq<seq<Key>>, n: nat)
    requires limit >= 1 && Walk(all, limit, pages) && n < |pages|
    requires
      var rest := Rest(all, CursorAt(pages, n, limit));
      |rest| >= limit && |AtLeast(rest, Boundary(rest, limit))| == limit
    ensures
      var rest := Rest(all, CursorAt(pages, n, limit));
      forall k :: k in pages[n] <==> k in AtLeast(rest, Boundary(rest, limit))
  {
    var rest := Rest(all, CursorAt(pages, n, limit));
    CursorIsBoundary(all, limit, pages, n);
    PageEnds(rest, limit, pages[n]);
    DistinctCount(pages[n]);
    SameSize(Elements(pages[n]), AtLeast(rest, Boundary(rest, limit)));
    forall k ensures k in pages[n] <==> k in Elements(pages[n]) {}
  }

  ghost predicate AllListedFrom(pages: seq<seq<Key>>, n: int, rest: set<Key>) {
    forall k :: k in rest ==> ListedFrom(pages, n, k)
  }

  lemma {:induction false} SuffixListsIff(all: set<Key>, limit: int, pages: seq<seq<Key>>, n: nat)
    requires limit >= 1 && CompleteWalk(all, limit, pages) && n < |pages|
    ensures
      var rest := Rest(all, CursorAt(pages, n, limit));
      AllListedFrom(pages, n, rest) <==> !SplitsTie(rest, limit)
    decreases |pages| - n
  {
    var rest := Rest(all, CursorAt(pages, n, limit));
    CursorIsBoundary(all, limit, pages, n);
    if |rest| < limit {
      PageEnds(rest, limit, pages[n]);
      forall k | k in rest ensures ListedFrom(pages, n, k) { assert k in Elements(pages[n]); }
    } else {
      SuffixListsIff(all, limit, pages, n + 1);
      var c := Boundary(rest, limit);
      if |AtLeast(rest, c)| > limit {
        var k := SplitLeavesBehind(all, limit, pages, n);
        assert ListedFrom(pages, n, k) ==> ListedFrom(pages, 0, k);
      } else {
        UnsplitPage(all, limit, pages, n);
        UnsplitStep(pages, n, rest, c);
      }
    }
  }

  lemma UnsplitStep(pages: seq<seq<Key>>, n: nat, rest: set<Key>, c: Time)
    requires n < |pages| && forall k :: k in pages[n] <==> k in AtLeast(rest, c)
    ensures AllListedFrom(pages, n, rest) <==> AllListedFrom(pages, n + 1, Older(rest, c))
  {
    forall k ensures ListedFrom(pages, n, k) <==> k in pages[n] || ListedFrom(pages, n + 1, k) {
      if ListedFrom(pages, n, k) {
        var i :| n <= i < |pages| && 0 <= i && k in pages[i];
        assert i == n || n + 1 <= i;
      }
    }
    if AllListedFrom(pages, n + 1, Older(rest, c)) {
      forall k | k in rest ensures ListedFrom(pages, n, k) { assert k in AtLeast(rest, c) || k in Older(rest, c); }
    }
  }

  /** Every complete walk lists every key if and only if no boundary splits a tie: the stored keys and
      the limit decide, not the database's choice among equal times. */
  lemma WalkListsAllIff(all: set<Key>, limit: int, pages: seq<seq<Key>>)
    requires limit >= 1 && CompleteWalk(all, limit, pages)
    ensures (forall k :: k in all ==> exists i :: 0 <= i < |pages| && k in pages[i]) <==> !SplitsTie(all, limit)
  {
    SuffixListsIff(all, limit, pages, 0);
    assert Rest(all, CursorAt(pages, 0, limit)) == all;
    assert AllListedFrom(pages, 0, all) <==> forall k :: k in all ==> exists i :: 0 <= i < |pages| && k in pages[i] by {
      forall k ensures ListedFrom(pages, 0, k) <==> exists i :: 0 <= i < |pages| && k in pages[i] {}
    }
  }

  /** Walks exist and can be completed: the database always has a page to give, and the pages end. */
  lemma {:induction false} CompleteWalkFrom(all: set<Key>, limit: int, pages: seq<seq<Key>>) returns (whole: seq<seq<Key>>)
    requires limit >= 1 && Walk(all, limit, pages)
    requires pages != [] ==> NextToken(pages[|pages| - 1], limit).Some?
    ensures CompleteWalk(all, limit, whole) && pages <= whole
    decreases |Rest(all, CursorAt(pages, |pages|, limit))|
  {
    var cursor := CursorAt(pages, |pages|, limit);
    var rest := Rest(all, cursor);
    var page := PageExists(rest, limit);
    PageOfRest(all, cursor, limit, page);
    whole := pages + [page];
    WalkExtends(all, limit, pages, page);
    if NextToken(page, limit).Some? {
      CursorIsBoundary(all, limit, whole, |pages|);
      PageEnds(rest, limit, page);
      FewerLeft(rest, Boundary(rest, limit));
      whole := CompleteWalkFrom(all, limit, whole);
    }
  }

  lemma FewerLeft(rest: set<Key>, c: Time)
    requires Older(rest, c) < rest
    ensures |Older(rest, c)| < |rest|
  {
    SubsetSize(Older(rest, c), rest);
    assert |Older(rest, c)| == |rest| ==> Older(rest, c) == rest by {
      if |Older(rest, c)| == |rest| { SameSize(Older(rest, c), rest); }
    }
  }

  lemma WalkExtends(all: set<Key>, limit: int, pages: seq<seq<Key>>, page: seq<Key>)
    requires limit >= 1 && Walk(all, limit, pages)
    requires pages != [] ==> NextToken(pages[|pages| - 1], limit).Some?
    requires IsPage(all, CursorAt(pages, |pages|, limit), limit, page)
    ensures Walk(all, limit, pages + [page])
    ensures CursorAt(pages + [page], |pages|, limit) == CursorAt(pages, |pages|, limit)
  {
    var whole := pages + [page];
    forall i | 0 <= i < |whole| ensures Follows(all, limit, whole, i) {
      if i < |pages| { assert Follows(all, limit, pages, i); }
    }
  }

  lemma CompleteWalkExists(all: set<Key>, limit: int) returns (pages: seq<seq<Key>>)
    requires limit >= 1
    ensures CompleteWalk(all, limit, pages)
  {
    pages := CompleteWalkFrom(all, limit, []);
  }

  /** Two keys of one time, listed one by one: every complete walk omits one of them. */
  lemma TwoOfOneTime(a: Key, b: Key, pages: seq<seq<Key>>)
    requires a != b && a.row.createdAt == b.row.createdAt && CompleteWalk({a, b}, 1, pages)
    ensures !ListedFrom(pages, 0, a) || !ListedFrom(pages, 0, b)
  {
    var all := {a, b};
    var c := a.row.createdAt;
    assert Newer(all, c) == {} && AtLeast(all, c) == all;
    BoundaryIsUnique(all, 1, c, Boundary(all, 1));
    WalkListsAllIff(all, 1, pages);
  }

  /** One key per id, so "no key twice" is "no id twice". */
  lemma OneKeyPerId(t: Table, a: Key, b: Key)
    requires a in LatestKeys(t) && b in LatestKeys(t)
    ensures a.id == b.id ==> a == b
    ensures Latest(t, a.id) == Some(a.version)
  {
  }

  /** On the keys of a table a walk never repeats an id. */
  lemma NoIdTwice(t: Table, limit: int, pages: seq<seq<Key>>, i: int, x: int, j: int, y: int)
    requires limit >= 1 && Walk(LatestKeys(t), limit, pages)
    requires 0 <= i <= j < |pages| && 0 <= x < |pages[i]| && 0 <= y < |pages[j]| && (i < j || x < y)
    ensures pages[i][x].id != pages[j][y].id
  {
    WalkIsOrderedWithoutRepeats(LatestKeys(t), limit, pages, i, x, j, y);
    assert Follows(LatestKeys(t), limit, pages, i) && Follows(LatestKeys(t), limit, pages, j);
    OneKeyPerId(t, pages[i][x], pages[j][y]);
  }

  /** On a table whose latest rows have distinct creation times a complete walk lists every id that has
      rows, as its latest version. */
  lemma EveryIdIsListed(t: Table, limit: int, pages: seq<seq<Key>>, id: KeyId)
    requires limit >= 1 && CompleteWalk(LatestKeys(t), limit, pages) && Exists(t, id)
    requires forall a, b :: a in LatestKeys(t) && b in LatestKeys(t) && a.row.createdAt == b.row.createdAt ==> a == b
    ensures exists i :: 0 <= i < |pages| && GetKey(t, id).value in pages[i]
  {
    var k := (id, Latest(t, id).value);
    assert k in t && Latest(t, k.0) == Some(k.1);
    DistinctTimesListAll(LatestKeys(t), limit, pages, GetKey(t, id).value);
  }
}

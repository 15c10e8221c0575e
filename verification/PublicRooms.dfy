/** The public room directory: the rooms that pass the filter, most members
    first, handed out in pages that are linked by tokens. */
module PublicRooms {
  import opened Common
  import opened Decimal

  const USIZE_MAX: nat := 0xFFFF_FFFF_FFFF_FFFF

  /** No vector is longer than this. */
  const VEC_MAX: nat := 0x7FFF_FFFF_FFFF_FFFF

  const DEFAULT_LIMIT: nat := 10

  datatype Room = Room(id: string, members: nat)

  datatype Response = Response(chunk: seq<Room>, prev: Option<string>, next: Option<string>, total: nat)

  datatype Outcome = Page(page: Response) | InvalidToken | Panicked

  // ----- the list that is paged -----

  function Filtered(rooms: seq<Room>, keep: Room -> bool): (r: seq<Room>) {
    if rooms == [] then []
    else (if keep(rooms[0]) then [rooms[0]] else []) + Filtered(rooms[1..], keep)
  }

  /** Put a room before the first one that does not have more members. */
  function Insert(x: Room, s: seq<Room>): (r: seq<Room>) {
    if s == [] || s[0].members <= x.members then [x] + s else [s[0]] + Insert(x, s[1..])
  }

  function ByMembers(s: seq<Room>): (r: seq<Room>) {
    if s == [] then [] else Insert(s[0], ByMembers(s[1..]))
  }

  function Listing(rooms: seq<Room>, keep: Room -> bool): (r: seq<Room>) {
    ByMembers(Filtered(rooms, keep))
  }

  predicate Descending(s: seq<Room>) {
    forall i, j :: 0 <= i < j < |s| ==> s[i].members >= s[j].members
  }

  /** The rooms of one size, in the order they come. */
  function OfSize(s: seq<Room>, m: nat): (r: seq<Room>) {
    if s == [] then [] else (if s[0].members == m then [s[0]] else []) + OfSize(s[1..], m)
  }

  lemma {:induction false} InsertKeeps(x: Room, s: seq<Room>)
    ensures multiset(Insert(x, s)) == multiset(s) + multiset{x}
  {
    if s != [] && s[0].members > x.members {
      InsertKeeps(x, s[1..]);
      assert s == [s[0]] + s[1..];
    }
  }

  /** A larger room in front leaves the rest sorted. */
  lemma DescendingFront(r: Room, t: seq<Room>)
    requires Descending(t) && (t != [] ==> t[0].members <= r.members)
    ensures Descending([r] + t)
  {
  }

  lemma {:induction false} InsertSorts(x: Room, s: seq<Room>)
    requires Descending(s)
    ensures Descending(Insert(x, s))
  {
    if s == [] || s[0].members <= x.members {
      DescendingFront(x, s);
    } else {
      InsertSorts(x, s[1..]);
      DescendingFront(s[0], Insert(x, s[1..]));
    }
  }

  lemma {:induction false} InsertIsStable(x: Room, s: seq<Room>, m: nat)
    ensures OfSize(Insert(x, s), m) == OfSize([x] + s, m)
  {
    assert ([x] + s)[1..] == s;
    if s != [] && s[0].members > x.members {
      var t := Insert(x, s[1..]);
      InsertIsStable(x, s[1..], m);
      assert ([x] + s[1..])[1..] == s[1..];
      assert ([s[0]] + t)[1..] == t;
    }
  }

  /** The listing is sorted, holds the same rooms, and keeps rooms of equal
      size in the order of the directory. */
  lemma {:induction false} ListingIsStableSort(s: seq<Room>, m: nat)
    ensures Descending(ByMembers(s))
    ensures multiset(ByMembers(s)) == multiset(s)
    ensures OfSize(ByMembers(s), m) == OfSize(s, m)
  {
    if s != [] {
      ListingIsStableSort(s[1..], m);
      InsertSorts(s[0], ByMembers(s[1..]));
      InsertKeeps(s[0], ByMembers(s[1..]));
      InsertIsStable(s[0], ByMembers(s[1..]), m);
      assert s == [s[0]] + s[1..];
      assert OfSize([s[0]] + ByMembers(s[1..]), m) == OfSize(s, m) by {
        assert ([s[0]] + ByMembers(s[1..]))[1..] == ByMembers(s[1..]);
      }
    }
  }

  lemma {:induction false} FilteredMeans(rooms: seq<Room>, keep: Room -> bool, x: Room)
    ensures multiset(Filtered(rooms, keep))[x] == if keep(x) then multiset(rooms)[x] else 0
  {
    if rooms != [] {
      FilteredMeans(rooms[1..], keep, x);
      assert rooms == [rooms[0]] + rooms[1..];
    }
  }

  /** Room x stands somewhere before y. */
  predicate Precedes(s: seq<Room>, x: Room, y: Room) {
    exists i, j :: 0 <= i < j < |s| && s[i] == x && s[j] == y
  }

  lemma PrecedesFront(r: Room, s: seq<Room>, x: Room, y: Room)
    ensures Precedes([r] + s, x, y) <==> (r == x && y in s) || Precedes(s, x, y)
  {
    var t := [r] + s;
    if r == x && y in s {
      var j :| 0 <= j < |s| && s[j] == y;
      assert t[0] == x && t[j + 1] == y;
    }
    if Precedes(s, x, y) {
      var i, j :| 0 <= i < j < |s| && s[i] == x && s[j] == y;
      assert t[i + 1] == x && t[j + 1] == y;
    }
    if Precedes(t, x, y) {
      var i, j :| 0 <= i < j < |t| && t[i] == x && t[j] == y;
      assert t[j] == s[j - 1];
      if i > 0 {
        assert t[i] == s[i - 1];
      }
    }
  }

  lemma {:induction false} OfSizeKeepsOrder(s: seq<Room>, x: Room, y: Room)
    requires x.members == y.members
    ensures y in OfSize(s, x.members) <==> y in s
    ensures Precedes(OfSize(s, x.members), x, y) <==> Precedes(s, x, y)
  {
    if s != [] {
      hide Precedes;
      OfSizeKeepsOrder(s[1..], x, y);
      var rest := OfSize(s[1..], x.members);
      assert s == [s[0]] + s[1..];
      assert OfSize(s, x.members) == if s[0].members == x.members then [s[0]] + rest else rest;
      PrecedesFront(s[0], s[1..], x, y);
      PrecedesFront(s[0], rest, x, y);
    }
  }

  lemma {:induction false} FilteredKeepsOrder(s: seq<Room>, keep: Room -> bool, x: Room, y: Room)
    requires keep(x) && keep(y)
    ensures y in Filtered(s, keep) <==> y in s
    ensures Precedes(Filtered(s, keep), x, y) <==> Precedes(s, x, y)
  {
    if s != [] {
      hide Precedes;
      FilteredKeepsOrder(s[1..], keep, x, y);
      var rest := Filtered(s[1..], keep);
      assert s == [s[0]] + s[1..];
      assert Filtered(s, keep) == if keep(s[0]) then [s[0]] + rest else rest;
      PrecedesFront(s[0], s[1..], x, y);
      PrecedesFront(s[0], rest, x, y);
    }
  }

  /** What is paged: exactly the rooms that pass the filter, as often as they are
      in the directory, and most members first. */
  lemma ListingMeans(rooms: seq<Room>, keep: Room -> bool, x: Room)
    ensures multiset(Listing(rooms, keep))[x] == if keep(x) then multiset(rooms)[x] else 0
    ensures Descending(Listing(rooms, keep))
  {
    FilteredMeans(rooms, keep, x);
    ListingIsStableSort(Filtered(rooms, keep), 0);
  }

  /** Rooms of equal size that pass the filter keep the order of the directory. */
  lemma ListingKeepsOrder(rooms: seq<Room>, keep: Room -> bool, x: Room, y: Room)
    requires keep(x) && keep(y) && x.members == y.members
    ensures Precedes(Listing(rooms, keep), x, y) <==> Precedes(rooms, x, y)
  {
    hide Precedes;
    var kept := Filtered(rooms, keep);
    ListingIsStableSort(kept, x.members);
    OfSizeKeepsOrder(kept, x, y);
    OfSizeKeepsOrder(ByMembers(kept), x, y);
    FilteredKeepsOrder(rooms, keep, x, y);
  }

  // ----- one page -----

  function NextToken(position: nat): (t: string) {
    "n" + Print(position)
  }

  function PrevToken(position: nat): (t: string) {
    "p" + Print(position)
  }

  function Min(a: nat, b: nat): (m: nat) {
    if a <= b then a else b
  }

  /** Where the page that a token asks for starts. */
  function Start(since: Option<string>, limit: nat): (r: Option<nat>) {
    match since
    case None => Some(0)
    case Some(s) =>
      if s == [] || (s[0] != 'n' && s[0] != 'p') then None
      else
        var n := ParseUnsigned(s[1..], USIZE_MAX);
        if n.None? then None
        else if s[0] == 'n' then n
        else Some(if n.value >= limit then n.value - limit else 0)
  }

  /** The rooms from position `start` on, at most `limit` of them. */
  function Slice(all: seq<Room>, start: nat, limit: nat): (r: seq<Room>) {
    all[Min(start, |all|)..Min(start + limit, |all|)]
  }

  /** A page that starts at a given position. */
  predicate IsPage(p: Response, all: seq<Room>, start: nat, limit: nat) {
    && p.chunk == Slice(all, start, limit)
    && p.prev == (if start == 0 then None else Some(PrevToken(start)))
    && p.next == (if start + limit <= |all| || limit == 0 then Some(NextToken(start + limit)) else None)
    && p.total == (if |all| <= UINT_MAX then |all| else 0)
  }

  /** Answer one request. A token that is not a letter and a number is refused;
      the next token is computed even if it is not handed out, so that a
      position too far out is a panic. */
  method GetPage(rooms: seq<Room>, keep: Room -> bool, asked: Option<nat>, since: Option<string>)
    returns (r: Outcome)
    requires asked.Some? ==> asked.value <= UINT_MAX
    ensures r == Answer(Listing(rooms, keep), if asked.Some? then asked.value else 10, since)
  {
    hide Listing, NextToken, PrevToken, ParseUnsigned, Number, Slice;
    var limit := if asked.Some? then asked.value else DEFAULT_LIMIT;
    var numSince := 0;
    if since.Some? {
      var token := since.value;
      if token == [] || (token[0] != 'n' && token[0] != 'p') {
        return InvalidToken;
      }
      var parsed := ParseUnsigned(token[1..], USIZE_MAX);
      if parsed.None? {
        return InvalidToken;
      }
      numSince := parsed.value;
      if token[0] == 'p' {
        numSince := if numSince < limit then 0 else numSince - limit;
      }
    }
    var all := Listing(rooms, keep);
    var rest := if numSince < |all| then all[numSince..] else [];
    var chunk := if limit < |rest| then rest[..limit] else rest;
    if numSince + limit > USIZE_MAX {
      return Panicked;
    }
    SliceIsSkipTake(all, numSince, limit);
    r := Page(Response(
      chunk,
      if numSince != 0 then Some(PrevToken(numSince)) else None,
      if |chunk| >= limit then Some(NextToken(numSince + limit)) else None,
      if |all| <= UINT_MAX then |all| else 0));
  }

  lemma SliceIsSkipTake(all: seq<Room>, start: nat, limit: nat)
    ensures Slice(all, start, limit) ==
      var rest := if start < |all| then all[start..] else [];
      if limit < |rest| then rest[..limit] else rest
    ensures |Slice(all, start, limit)| >= limit <==> start + limit <= |all| || limit == 0
  {
  }

  function Answer(all: seq<Room>, limit: nat, since: Option<string>): (r: Outcome)
    ensures r.InvalidToken? <==> Start(since, limit).None?
    ensures r.Panicked? <==> Start(since, limit).Some? && Start(since, limit).value + limit > USIZE_MAX
    ensures r.Page? ==> IsPage(r.page, all, Start(since, limit).value, limit)
  {
    var start := Start(since, limit);
    if start.None? then InvalidToken
    else if start.value + limit > USIZE_MAX then Panicked
    else Page(Response(
      Slice(all, start.value, limit),
      if start.value == 0 then None else Some(PrevToken(start.value)),
      if start.value + limit <= |all| || limit == 0 then Some(NextToken(start.value + limit)) else None,
      if |all| <= UINT_MAX then |all| else 0))
  }

  /** Which tokens are accepted: a letter, and a number in range; `n` starts the
      page there, and `p` starts it a page before. */
  lemma TokenIff(s: string, limit: nat, start: nat)
    ensures Start(Some(s), limit) == Some(start) <==>
      s != [] && s[0] in {'n', 'p'} &&
      exists n: nat :: n <= 0xFFFF_FFFF_FFFF_FFFF && NumberText(s[1..], n) &&
        start == if s[0] == 'n' then n else if n >= limit then n - limit else 0
  {
    hide ParseUnsigned, NumberText;
    if s != [] {
      forall n: nat
        ensures ParseUnsigned(s[1..], USIZE_MAX) == Some(n) <==> n <= USIZE_MAX && NumberText(s[1..], n)
      {
        ParsedIff(s[1..], n);
      }
      var parsed := ParseUnsigned(s[1..], USIZE_MAX);
      if parsed.Some? {
        assert NumberText(s[1..], parsed.value);
      }
    }
  }

  /** The numeral of n, after zeros and after one plus sign. */
  ghost predicate NumberText(s: string, n: nat) {
    Spells(s, n) || (s != [] && s[0] == '+' && Spells(s[1..], n))
  }

  lemma ParsedIff(s: string, n: nat)
    ensures ParseUnsigned(s, USIZE_MAX) == Some(n) <==> n <= USIZE_MAX && NumberText(s, n)
  {
    hide ParseUnsigned, Spells;
    UnsignedIff(s, USIZE_MAX, n);
  }

  /** A token reads back as the position it was made from. */
  lemma TokenRoundTrip(start: nat, limit: nat)
    requires start <= USIZE_MAX
    ensures Start(Some(NextToken(start)), limit) == Some(start)
    ensures Start(Some(PrevToken(start)), limit) == Some(if start >= limit then start - limit else 0)
  {
    UnsignedRoundTrip(start, USIZE_MAX);
    assert NextToken(start)[1..] == Print(start);
    assert PrevToken(start)[1..] == Print(start);
  }

  /** The chunk holds the rooms from a position of the listing on. */
  predicate StandsAt(chunk: seq<Room>, all: seq<Room>, start: nat) {
    forall j :: 0 <= j < |chunk| ==> start + j < |all| && chunk[j] == all[start + j]
  }

  /** What a page is for its reader: the rooms at consecutive positions, as many
      as the limit asks for and the listing has; a next token exactly if the page
      is full, which leads to the position behind it; and a backward token
      exactly if there is something before, which leads one page back. */
  lemma PageMeans(all: seq<Room>, limit: nat, since: Option<string>)
    requires |all| <= VEC_MAX && limit <= UINT_MAX && Answer(all, limit, since).Page?
    ensures
      var start, p := Start(since, limit).value, Answer(all, limit, since).page;
      && |p.chunk| <= limit && (|p.chunk| < limit ==> start + |p.chunk| >= |all|)
      && StandsAt(p.chunk, all, start)
      && (p.next.Some? <==> |p.chunk| == limit)
      && (p.next.Some? ==> Start(p.next, limit) == Some(start + limit))
      && p.total == (if |all| <= UINT_MAX then |all| else 0)
      && (p.prev.Some? <==> start > 0)
      && (p.prev.Some? ==> Start(p.prev, limit) == Some(if start >= limit then start - limit else 0))
  {
    hide Start, NextToken, PrevToken, Slice, Answer;
    var start := Start(since, limit).value;
    var p := Answer(all, limit, since).page;
    SliceMeans(all, start, limit);
    TokenRoundTrip(start, limit);
    TokenRoundTrip(start + limit, limit);
  }

  lemma SliceMeans(all: seq<Room>, start: nat, limit: nat)
    ensures
      var chunk := Slice(all, start, limit);
      && |chunk| <= limit && (|chunk| < limit ==> start + |chunk| >= |all|)
      && StandsAt(chunk, all, start)
      && (|chunk| == limit <==> start + limit <= |all| || limit == 0)
  {
  }

  // ----- following the tokens -----

  /** The pages a client gets by following the next tokens from the start. */
  predicate Chain(all: seq<Room>, limit: nat, pages: seq<Response>) {
    && pages != []
    && Answer(all, limit, None) == Page(pages[0])
    && forall i :: 0 <= i < |pages| - 1 ==>
      pages[i].next.Some? && Answer(all, limit, pages[i].next) == Page(pages[i + 1])
  }

  predicate Fits(all: seq<Room>, limit: nat) {
    |all| <= VEC_MAX && 1 <= limit <= UINT_MAX
  }

  /** The k-th page starts at k times the limit, and is in range. */
  lemma {:induction false} ChainPage(all: seq<Room>, limit: nat, pages: seq<Response>, k: nat)
    requires Fits(all, limit) && Chain(all, limit, pages) && k < |pages|
    ensures k * limit <= |all| && IsPage(pages[k], all, k * limit, limit)
  {
    if k > 0 {
      ChainPage(all, limit, pages, k - 1);
      assert k * limit == (k - 1) * limit + limit;
      assert pages[k - 1].next.Some?;
      TokenRoundTrip(k * limit, limit);
      assert Answer(all, limit, pages[k - 1].next) == Page(pages[k - 1 + 1]);
    }
  }

  function Chunks(pages: seq<Response>): (r: seq<Room>) {
    if pages == [] then [] else Chunks(pages[..|pages| - 1]) + pages[|pages| - 1].chunk
  }

  lemma {:induction false} ChunksOfChain(all: seq<Room>, limit: nat, pages: seq<Response>, k: nat)
    requires Fits(all, limit) && Chain(all, limit, pages) && k <= |pages|
    ensures Chunks(pages[..k]) == all[..Min(k * limit, |all|)]
  {
    if k > 0 {
      ChunksOfChain(all, limit, pages, k - 1);
      ChainPage(all, limit, pages, k - 1);
      assert k * limit == (k - 1) * limit + limit;
      assert pages[..k][..k - 1] == pages[..k - 1];
      JoinSlice(all, (k - 1) * limit, limit);
    }
  }

  lemma JoinSlice(all: seq<Room>, start: nat, limit: nat)
    requires start <= |all|
    ensures all[..start] + Slice(all, start, limit) == all[..Min(start + limit, |all|)]
  {
  }

  lemma MulMono(a: nat, b: nat, c: nat)
    ensures a <= b ==> a * c <= b * c
  {
    if a <= b {
      assert b * c == a * c + (b - a) * c;
    }
  }

  /** How often the limit goes into the number of rooms. */
  lemma Quotient(n: nat, limit: nat, k: nat)
    requires limit >= 1
    ensures k * limit <= n ==> k <= n / limit
    ensures n < k * limit + limit ==> n / limit <= k
  {
    var q := n / limit;
    assert n == q * limit + n % limit;
    MulMono(q + 1, k, limit);
    MulMono(k + 1, q, limit);
    assert (q + 1) * limit == q * limit + limit && (k + 1) * limit == k * limit + limit;
  }

  /** Two pages at one position are the same. */
  lemma PageIsUnique(p: Response, q: Response, all: seq<Room>, start: nat, limit: nat)
    requires IsPage(p, all, start, limit) && IsPage(q, all, start, limit)
    ensures p == q
  {
    hide NextToken, PrevToken, Slice;
  }

  /** A token to a position in the listing is answered by the page there. */
  lemma TokenAnswer(all: seq<Room>, limit: nat, token: Option<string>, start: nat, p: Response)
    requires Fits(all, limit) && start <= |all| && IsPage(p, all, start, limit)
    requires token == Some(NextToken(start)) || token == Some(PrevToken(start + limit))
    ensures Answer(all, limit, token) == Page(p)
  {
    hide Start, NextToken, PrevToken, Slice, IsPage, Answer;
    TokenRoundTrip(start, limit);
    TokenRoundTrip(start + limit, limit);
    PageIsUnique(p, Answer(all, limit, token).page, all, start, limit);
  }

  /** A chain that came to its end holds the whole listing once, in order, in
      exactly floor(n / limit) + 1 pages. */
  lemma {:induction false} PagingCoversAll(all: seq<Room>, limit: nat, pages: seq<Response>)
    requires Fits(all, limit) && Chain(all, limit, pages) && pages[|pages| - 1].next.None?
    ensures Chunks(pages) == all
    ensures |pages| == |all| / limit + 1
  {
    hide Answer, NextToken, PrevToken, Slice, Chunks;
    var last := |pages| - 1;
    LastPage(all, limit, pages);
    ChunksOfChain(all, limit, pages, |pages|);
    hide Chain, Fits;
    assert pages[..|pages|] == pages && all[..|all|] == all;
    Quotient(|all|, limit, last);
  }

  /** The last page is the one that reaches the end of the listing. */
  lemma LastPage(all: seq<Room>, limit: nat, pages: seq<Response>)
    requires Fits(all, limit) && Chain(all, limit, pages) && pages[|pages| - 1].next.None?
    ensures
      var last := |pages| - 1;
      last * limit <= |all| < last * limit + limit && |pages| * limit == last * limit + limit
  {
    hide Answer, NextToken, PrevToken, Slice;
    var last := |pages| - 1;
    ChainPage(all, limit, pages, last);
    hide Chain, Fits;
    assert (last + 1) * limit == last * limit + limit;
  }

  /** A chain that has not ended can be followed, and no chain is longer. */
  lemma {:induction false} PagingGoesOn(all: seq<Room>, limit: nat, pages: seq<Response>) returns (next: Response)
    requires Fits(all, limit) && Chain(all, limit, pages) && pages[|pages| - 1].next.Some?
    ensures Chain(all, limit, pages + [next])
    ensures |pages| <= |all| / limit
  {
    hide Answer, NextToken, PrevToken, Slice;
    var last := |pages| - 1;
    ChainPage(all, limit, pages, last);
    var start := last * limit + limit;
    assert start == |pages| * limit;
    Quotient(|all|, limit, |pages|);
    next := PageAt(all, start, limit);
    TokenAnswer(all, limit, pages[last].next, start, next);
  }

  /** Some client that follows the next tokens from the start comes to an end. */
  ghost predicate PagingEnds(all: seq<Room>, limit: nat) {
    exists pages: seq<Response> :: Chain(all, limit, pages) && pages[|pages| - 1].next.None?
  }

  /** Every chain can be followed to its end. */
  lemma {:induction false} FollowToEnd(all: seq<Room>, limit: nat, pages: seq<Response>) returns (whole: seq<Response>)
    requires Fits(all, limit) && Chain(all, limit, pages)
    ensures pages <= whole && Chain(all, limit, whole) && whole[|whole| - 1].next.None?
    decreases |all| / limit + 1 - |pages|
  {
    if pages[|pages| - 1].next.None? {
      whole := pages;
    } else {
      var next := PagingGoesOn(all, limit, pages);
      hide Chain;
      whole := FollowToEnd(all, limit, pages + [next]);
    }
  }

  lemma FirstPage(all: seq<Room>, limit: nat) returns (pages: seq<Response>)
    requires |all| <= VEC_MAX && limit <= UINT_MAX
    ensures Chain(all, limit, pages)
  {
    pages := [Answer(all, limit, None).page];
  }

  /** Paging comes to an end exactly if the limit is not zero. */
  lemma PagingEndsIff(all: seq<Room>, limit: nat)
    requires |all| <= VEC_MAX && limit <= UINT_MAX
    ensures PagingEnds(all, limit) <==> limit >= 1
  {
    var first := FirstPage(all, limit);
    if limit >= 1 {
      var whole := FollowToEnd(all, limit, first);
      hide Chain;
    } else {
      forall pages: seq<Response> | Chain(all, limit, pages)
        ensures pages[|pages| - 1].next.Some?
      {
        var last := |pages| - 1;
        assert last > 0 ==> Answer(all, limit, pages[last - 1].next) == Page(pages[last - 1 + 1]);
        hide Slice, NextToken, PrevToken, Start;
      }
    }
  }

  lemma PageAt(all: seq<Room>, start: nat, limit: nat) returns (p: Response)
    ensures IsPage(p, all, start, limit)
  {
    p := Response(
      Slice(all, start, limit),
      if start == 0 then None else Some(PrevToken(start)),
      if start + limit <= |all| || limit == 0 then Some(NextToken(start + limit)) else None,
      if |all| <= UINT_MAX then |all| else 0);
  }

  /** Going back from a page gives the page before it; the first has none. */
  lemma PreviousPage(all: seq<Room>, limit: nat, pages: seq<Response>, k: nat)
    requires Fits(all, limit) && Chain(all, limit, pages) && k < |pages|
    ensures pages[k].prev.None? <==> k == 0
    ensures k > 0 ==> Answer(all, limit, pages[k].prev) == Page(pages[k - 1])
  {
    hide Answer, NextToken, PrevToken, Slice, Chain;
    ChainPage(all, limit, pages, k);
    if k > 0 {
      ChainPage(all, limit, pages, k - 1);
      var before := (k - 1) * limit;
      assert k * limit == before + limit;
      TokenAnswer(all, limit, pages[k].prev, before, pages[k - 1]);
    }
  }

  /** From a position that paging did not reach, going back overlaps: the page
      it gives ends where the other starts exactly if there are that many rooms
      before. */
  lemma PreviousFrom(all: seq<Room>, limit: nat, start: nat)
    requires Fits(all, limit) && 0 < start <= |all|
    ensures
      var back := Start(Some(PrevToken(start)), limit);
      back.Some? && (back.value + limit == start <==> start >= limit)
  {
    TokenRoundTrip(start, limit);
  }

  /** With a limit of zero the next token leads to the same empty page for ever. */
  lemma LimitZeroNeverEnds(all: seq<Room>, since: Option<string>)
    requires Start(since, 0).Some?
    ensures
      var r := Answer(all, 0, since);
      r.Page? && r.page.chunk == [] && r.page.next.Some? && Answer(all, 0, r.page.next) == r
  {
    var start := Start(since, 0).value;
    TokenRoundTrip(start, 0);
  }
}

/** Paging a sorted list: in memory by index, and in the database by the id at the page's edge. */
module Pagination {
  import opened Wrappers
  import opened StringOrder

  datatype Direction = Forward | Backward

  /** A cursor is taken to be the id it encodes. */
  datatype PageInfo = PageInfo(next: Option<string>, previous: Option<string>, hasMore: bool)

  datatype Page<T> = Page(items: seq<T>, info: PageInfo)

  /** The ids of the items are not empty and grow strictly. */
  ghost predicate Ordered<T(!new)>(items: seq<T>, id: T -> string) {
    && (forall i | 0 <= i < |items| :: id(items[i]) != "")
    && forall i, j | 0 <= i < j < |items| :: Less(id(items[i]), id(items[j]))
  }

  /** The first item with the boundary's id, or the length of the list. */
  function IndexOf<T>(items: seq<T>, id: T -> string, boundary: string): nat {
    if items == [] || id(items[0]) == boundary then 0 else 1 + IndexOf(items[1..], id, boundary)
  }

  lemma {:induction false} IndexIsFirst<T(!new)>(items: seq<T>, id: T -> string, boundary: string)
    ensures var k := IndexOf(items, id, boundary);
            && k <= |items| && (k < |items| ==> id(items[k]) == boundary)
            && forall j | 0 <= j < k :: id(items[j]) != boundary
  {
    if items != [] && id(items[0]) != boundary {
      IndexIsFirst(items[1..], id, boundary);
      var k := IndexOf(items[1..], id, boundary);
      assert forall j | 1 <= j < k + 1 :: items[j] == items[1..][j - 1];
    }
  }

  function Start(n: nat, d: Direction, boundary: Option<nat>, limit: nat): nat
    requires boundary.Some? ==> boundary.value < n
  {
    match d
    case Forward => if boundary.Some? then boundary.value + 1 else 0
    case Backward =>
      var end := if boundary.Some? then boundary.value else n;
      if end >= limit then end - limit else 0
  }

  function End(n: nat, d: Direction, boundary: Option<nat>, limit: nat): nat
    requires boundary.Some? ==> boundary.value < n
  {
    match d
    case Forward => if Start(n, d, boundary, limit) + limit < n then Start(n, d, boundary, limit) + limit else n
    case Backward => if boundary.Some? then boundary.value else n
  }

  /** The page between two positions, with cursors to what lies beyond them. */
  function Slice<T>(items: seq<T>, id: T -> string, d: Direction, start: nat, end: nat): Page<T>
    requires start <= end <= |items|
  {
    Page(items[start..end],
         PageInfo(if start < end < |items| then Some(id(items[end - 1])) else None,
                  if 0 < start < end then Some(id(items[start])) else None,
                  if d == Forward then end < |items| else start > 0))
  }

  predicate InList<T>(items: seq<T>, id: T -> string, boundary: string) {
    boundary == "" || IndexOf(items, id, boundary) < |items|
  }

  function Boundary<T>(items: seq<T>, id: T -> string, boundary: string): Option<nat> {
    if boundary == "" then None else Some(IndexOf(items, id, boundary))
  }

  /** The page next to a boundary of the list, or None when the boundary is not in it. */
  function PageAt<T>(items: seq<T>, id: T -> string, d: Direction, boundary: string, limit: nat): Option<Page<T>> {
    if !InList(items, id, boundary) then None
    else
      var b := Boundary(items, id, boundary);
      Some(Slice(items, id, d, Start(|items|, d, b, limit), End(|items|, d, b, limit)))
  }

  method FindBoundary<T>(items: seq<T>, id: T -> string, boundary: string) returns (boundaryIndex: int)
    ensures boundaryIndex == if IndexOf(items, id, boundary) < |items| then IndexOf(items, id, boundary) else -1
  {
    var i := 0;
    while i < |items|
      invariant 0 <= i <= |items|
      invariant IndexOf(items, id, boundary) == i + IndexOf(items[i..], id, boundary)
    {
      if id(items[i]) == boundary {
        return i;
      }
      assert items[i..][1..] == items[i + 1..];
      i := i + 1;
    }
    return -1;
  }

  method PaginateOrdered<T>(items: seq<T>, id: T -> string, d: Direction, boundary: string, limit: nat)
    returns (r: Option<Page<T>>)
    ensures r == PageAt(items, id, d, boundary, limit)
  {
    var boundaryIndex := -1;
    if boundary != "" {
      boundaryIndex := FindBoundary(items, id, boundary);
      if boundaryIndex < 0 {
        return None;
      }
    }
    var start, end := 0, |items|;
    if d == Forward {
      if boundaryIndex >= 0 {
        start := boundaryIndex + 1;
      }
      end := if start + limit <= |items| then start + limit else |items|;
    } else {
      if boundaryIndex >= 0 {
        end := boundaryIndex;
      }
      start := if end - limit >= 0 then end - limit else 0;
    }
    assert start == Start(|items|, d, Boundary(items, id, boundary), limit);
    assert end == End(|items|, d, Boundary(items, id, boundary), limit);
    var page := items[start..end];
    var info := PageInfo(None, None, (d == Forward && end < |items|) || (d == Backward && start > 0));
    if |page| > 0 && end < |items| {
      info := info.(next := Some(id(page[|page| - 1])));
    }
    if |page| > 0 && start > 0 {
      info := info.(previous := Some(id(page[0])));
    }
    return Some(Page(page, info));
  }

  // ----- the database query -----

  function Reversed<T>(s: seq<T>): seq<T> {
    seq(|s|, i requires 0 <= i < |s| => s[|s| - 1 - i])
  }

  function Above<T>(items: seq<T>, id: T -> string, boundary: string): seq<T> {
    if items == [] then []
    else (if Less(boundary, id(items[0])) then [items[0]] else []) + Above(items[1..], id, boundary)
  }

  function Below<T>(items: seq<T>, id: T -> string, boundary: string): seq<T> {
    if items == [] then []
    else (if Less(id(items[0]), boundary) then [items[0]] else []) + Below(items[1..], id, boundary)
  }

  function First<T>(s: seq<T>, n: nat): seq<T> {
    if |s| <= n then s else s[..n]
  }

  /** The rows beyond the boundary, nearest first, one more than the page takes. */
  function Query<T>(items: seq<T>, id: T -> string, d: Direction, boundary: string, limit: nat): seq<T> {
    match d
    case Forward => First(if boundary == "" then items else Above(items, id, boundary), limit + 1)
    case Backward => First(Reversed(if boundary == "" then items else Below(items, id, boundary)), limit + 1)
  }

  /** Drops the extra row and turns a backward page around, in place; length says how much is left. */
  method FinishPage<T>(items: array<T>, limit: nat, d: Direction) returns (length: nat, more: bool)
    modifies items
    ensures more == (items.Length > limit) && length == (if more then limit else items.Length)
    ensures items[..length] == if d == Backward then Reversed(old(items[..])[..length]) else old(items[..])[..length]
  {
    more := items.Length > limit;
    length := if more then limit else items.Length;
    if d == Backward {
      var i := 0;
      while i < length / 2
        invariant 0 <= i <= length / 2
        invariant forall k | 0 <= k < i ::
          items[k] == old(items[..])[length - 1 - k] && items[length - 1 - k] == old(items[..])[k]
        invariant forall k | i <= k < length - i :: items[k] == old(items[..])[k]
      {
        items[i], items[length - 1 - i] := items[length - 1 - i], items[i];
        i := i + 1;
      }
    }
  }

  function FinishedItems<T>(rows: seq<T>, limit: nat, d: Direction): seq<T> {
    var kept := if |rows| > limit then rows[..limit] else rows;
    if d == Backward then Reversed(kept) else kept
  }

  /** What a page knows without its list: more rows on the side it was read towards, and whence it came. */
  function KeysetInfo<T>(d: Direction, boundary: string, items: seq<T>, more: bool, id: T -> string): PageInfo {
    var onward, back := if d == Forward then more else boundary != "", if d == Forward then boundary != "" else more;
    PageInfo(if items != [] && onward then Some(id(items[|items| - 1])) else None,
             if items != [] && back then Some(id(items[0])) else None, more)
  }

  method PageInfoForKeyset<T>(d: Direction, boundary: string, items: seq<T>, more: bool, id: T -> string)
    returns (info: PageInfo)
    ensures info == KeysetInfo(d, boundary, items, more, id)
  {
    info := PageInfo(None, None, more);
    if |items| == 0 {
      return info;
    }
    var first, last := id(items[0]), id(items[|items| - 1]);
    if d == Backward {
      if more {
        info := info.(previous := Some(first));
      }
      if boundary != "" {
        info := info.(next := Some(last));
      }
      return info;
    }
    if boundary != "" {
      info := info.(previous := Some(first));
    }
    if more {
      info := info.(next := Some(last));
    }
  }

  // ----- the two agree -----

  lemma {:induction false} AboveIsSuffix<T(!new)>(items: seq<T>, id: T -> string, boundary: string)
    requires Ordered(items, id) && IndexOf(items, id, boundary) < |items|
    ensures Above(items, id, boundary) == items[IndexOf(items, id, boundary) + 1..]
  {
    if id(items[0]) == boundary {
      LessIsStrict(boundary, boundary);
      AllAbove(items[1..], id, boundary);
    } else {
      IndexIsFirst(items, id, boundary);
      LessIsStrict(boundary, id(items[0]));
      AboveIsSuffix(items[1..], id, boundary);
      assert items[1..][IndexOf(items[1..], id, boundary) + 1..] == items[IndexOf(items, id, boundary) + 1..];
    }
  }

  lemma {:induction false} AllAbove<T(!new)>(items: seq<T>, id: T -> string, boundary: string)
    requires forall i | 0 <= i < |items| :: Less(boundary, id(items[i]))
    ensures Above(items, id, boundary) == items
  {
    if items != [] {
      AllAbove(items[1..], id, boundary);
    }
  }

  lemma {:induction false} NoneBelow<T(!new)>(items: seq<T>, id: T -> string, boundary: string)
    requires forall i | 0 <= i < |items| :: !Less(id(items[i]), boundary)
    ensures Below(items, id, boundary) == []
  {
    if items != [] {
      NoneBelow(items[1..], id, boundary);
    }
  }

  lemma {:induction false} BelowIsPrefix<T(!new)>(items: seq<T>, id: T -> string, boundary: string)
    requires Ordered(items, id) && IndexOf(items, id, boundary) < |items|
    ensures Below(items, id, boundary) == items[..IndexOf(items, id, boundary)]
  {
    if id(items[0]) == boundary {
      forall i | 0 <= i < |items|
        ensures !Less(id(items[i]), boundary)
      {
        LessIsStrict(id(items[i]), boundary);
      }
      NoneBelow(items, id, boundary);
    } else {
      IndexIsFirst(items, id, boundary);
      BelowIsPrefix(items[1..], id, boundary);
      assert Less(id(items[0]), id(items[IndexOf(items, id, boundary)]));
      assert items[..IndexOf(items, id, boundary)] == [items[0]] + items[1..][..IndexOf(items[1..], id, boundary)];
    }
  }

  lemma LastOnesReversed<T>(s: seq<T>, limit: nat)
    ensures FinishedItems(First(Reversed(s), limit + 1), limit, Backward) == if |s| > limit then s[|s| - limit..] else s
  {
  }

  function KeysetPage<T>(rows: seq<T>, d: Direction, boundary: string, limit: nat, id: T -> string): Page<T> {
    var items := FinishedItems(rows, limit, d);
    Page(items, KeysetInfo(d, boundary, items, |rows| > limit, id))
  }

  lemma ForwardQuery<T(!new)>(items: seq<T>, id: T -> string, boundary: string, limit: nat)
    requires Ordered(items, id) && InList(items, id, boundary)
    ensures var rows := Query(items, id, Forward, boundary, limit);
            var start := Start(|items|, Forward, Boundary(items, id, boundary), limit);
            && start <= |items| && (|rows| > limit <==> start + limit < |items|)
            && FinishedItems(rows, limit, Forward)
               == items[start..if start + limit < |items| then start + limit else |items|]
  {
    if boundary != "" {
      AboveIsSuffix(items, id, boundary);
    }
    var start := Start(|items|, Forward, Boundary(items, id, boundary), limit);
    assert items[0..] == items;
  }

  lemma BackwardQuery<T(!new)>(items: seq<T>, id: T -> string, boundary: string, limit: nat)
    requires Ordered(items, id) && InList(items, id, boundary)
    ensures var rows := Query(items, id, Backward, boundary, limit);
            var end := End(|items|, Backward, Boundary(items, id, boundary), limit);
            && end <= |items| && (|rows| > limit <==> end > limit)
            && FinishedItems(rows, limit, Backward) == items[if end > limit then end - limit else 0..end]
  {
    if boundary != "" {
      BelowIsPrefix(items, id, boundary);
    }
    var end := End(|items|, Backward, Boundary(items, id, boundary), limit);
    assert items[..|items|] == items;
    LastOnesReversed(items[..end], limit);
  }

  lemma SliceInfo<T(!new)>(items: seq<T>, id: T -> string, d: Direction, boundary: string, start: nat, end: nat)
    requires start <= end <= |items|
    requires d == Forward ==> (boundary != "" <==> start > 0)
    requires d == Backward ==> (boundary != "" <==> end < |items|)
    ensures KeysetInfo(d, boundary, items[start..end], if d == Forward then end < |items| else start > 0, id)
            == if start < end then Slice(items, id, d, start, end).info
               else PageInfo(None, None, if d == Forward then end < |items| else start > 0)
  {
  }

  /** The keyset page is the in-memory page: same items, same hasMore, same cursors. */
  lemma KeysetRefinesOrdered<T(!new)>(items: seq<T>, id: T -> string, d: Direction, boundary: string, limit: nat)
    requires Ordered(items, id) && limit >= 1 && InList(items, id, boundary)
    ensures PageAt(items, id, d, boundary, limit) ==
            Some(KeysetPage(Query(items, id, d, boundary, limit), d, boundary, limit, id))
  {
    var b := Boundary(items, id, boundary);
    SliceInfo(items, id, d, boundary, Start(|items|, d, b, limit), End(|items|, d, b, limit));
    match d
    case Forward => ForwardQuery(items, id, boundary, limit);
    case Backward => BackwardQuery(items, id, boundary, limit);
  }

  // ----- walking through the pages -----

  lemma IndexOfItem<T(!new)>(items: seq<T>, id: T -> string, k: nat)
    requires Ordered(items, id) && k < |items|
    ensures IndexOf(items, id, id(items[k])) == k
  {
    IndexIsFirst(items, id, id(items[k]));
    forall j | 0 <= j < k
      ensures id(items[j]) != id(items[k])
    {
      LessIsStrict(id(items[j]), id(items[k]));
    }
  }

  /** The pages reached by following next cursors after the first done items. */
  function Walk<T>(items: seq<T>, id: T -> string, limit: nat, done: nat): seq<Page<T>>
    requires limit >= 1 && done <= |items|
    decreases |items| - done
  {
    var page := Slice(items, id, Forward, done, if done + limit < |items| then done + limit else |items|);
    if page.info.next.None? then [page] else [page] + Walk(items, id, limit, done + |page.items|)
  }

  function AllItems<T>(pages: seq<Page<T>>): seq<T> {
    if pages == [] then [] else pages[0].items + AllItems(pages[1..])
  }

  lemma {:induction false} WalkCoversRest<T(!new)>(items: seq<T>, id: T -> string, limit: nat, done: nat)
    requires limit >= 1 && done <= |items|
    ensures AllItems(Walk(items, id, limit, done)) == items[done..]
    decreases |items| - done
  {
    if done + limit < |items| {
      WalkCoversRest(items, id, limit, done + limit);
      var rest := Walk(items, id, limit, done + limit);
      assert ([Slice(items, id, Forward, done, done + limit)] + rest)[1..] == rest;
    }
  }

  ghost predicate NextPage<T(!new)>(items: seq<T>, id: T -> string, limit: nat, page: Page<T>, following: Page<T>) {
    page.info.next.Some? && PageAt(items, id, Forward, page.info.next.value, limit) == Some(following)
  }

  lemma NextFromCursor<T(!new)>(items: seq<T>, id: T -> string, limit: nat, done: nat)
    requires Ordered(items, id) && limit >= 1 && done + limit < |items|
    ensures NextPage(items, id, limit, Slice(items, id, Forward, done, done + limit),
                     Walk(items, id, limit, done + limit)[0])
  {
    IndexOfItem(items, id, done + limit - 1);
  }

  /** Each page of the walk is the one that the cursor of the page before it asks for. */
  lemma {:induction false} WalkFollowsCursors<T(!new)>(items: seq<T>, id: T -> string, limit: nat, done: nat, i: nat)
    requires Ordered(items, id) && limit >= 1 && done <= |items| && i + 1 < |Walk(items, id, limit, done)|
    ensures var pages := Walk(items, id, limit, done); NextPage(items, id, limit, pages[i], pages[i + 1])
    decreases |items| - done
  {
    var rest := Walk(items, id, limit, done + limit);
    assert Walk(items, id, limit, done) == [Slice(items, id, Forward, done, done + limit)] + rest;
    if i > 0 {
      WalkFollowsCursors(items, id, limit, done + limit, i - 1);
    } else {
      NextFromCursor(items, id, limit, done);
    }
  }

  /** Following next cursors from the start reads the whole list once, in order, and ends. */
  lemma WalkReadsEverything<T(!new)>(items: seq<T>, id: T -> string, limit: nat)
    requires Ordered(items, id) && limit >= 1
    ensures var pages := Walk(items, id, limit, 0);
            && Some(pages[0]) == PageAt(items, id, Forward, "", limit)
            && (forall i | 0 <= i < |pages| - 1 :: NextPage(items, id, limit, pages[i], pages[i + 1]))
            && pages[|pages| - 1].info.next.None? && AllItems(pages) == items
  {
    var pages := Walk(items, id, limit, 0);
    forall i | 0 <= i < |pages| - 1
      ensures NextPage(items, id, limit, pages[i], pages[i + 1])
    {
      WalkFollowsCursors(items, id, limit, 0, i);
    }
    WalkCoversRest(items, id, limit, 0);
    WalkEnds(items, id, limit, 0);
  }

  lemma {:induction false} WalkEnds<T(!new)>(items: seq<T>, id: T -> string, limit: nat, done: nat)
    requires limit >= 1 && done <= |items|
    ensures var pages := Walk(items, id, limit, done); pages[|pages| - 1].info.next.None?
    decreases |items| - done
  {
    if done + limit < |items| {
      WalkEnds(items, id, limit, done + limit);
    }
  }

  /** Going back from the page after a forward page shows that page again, with the same cursors. */
  lemma PreviousUndoesNext<T(!new)>(items: seq<T>, id: T -> string, limit: nat, boundary: string, page: Page<T>,
                             following: Page<T>)
    requires Ordered(items, id) && limit >= 1
    requires PageAt(items, id, Forward, boundary, limit) == Some(page) && NextPage(items, id, limit, page, following)
    ensures following.info.previous.Some?
    ensures var back := PageAt(items, id, Backward, following.info.previous.value, limit);
            back.Some? && back.value.items == page.items &&
            back.value.info.next == page.info.next && back.value.info.previous == page.info.previous
  {
    var start := Start(|items|, Forward, Boundary(items, id, boundary), limit);
    IndexOfItem(items, id, start + limit - 1);
    IndexOfItem(items, id, start + limit);
  }
}

// Following a cursor to the end of a listing: collectPages of study-1/src/cleanup/surface-readings.ts.
module Paging {
  import opened Wrappers

  datatype Page<T> = Page(items: seq<T>, cursor: Option<string>)

  datatype PagingFailure<E> = FetchFailed(error: E) | CursorRepeated(cursor: string) | LimitExceeded

  // A listing that answers each cursor with a fixed page, as one walk of at most `pages` pages.
  datatype Walk<T, E> = Ended(items: seq<T>) | Broke(error: E) | TooLong

  type Fetch<T, E> = Option<string> -> Result<Page<T>, E>

  ghost function After<T, E>(items: seq<T>, walk: Walk<T, E>): Walk<T, E> {
    if walk.Ended? then Ended(items + walk.items) else walk
  }

  ghost function WalkFrom<T, E>(fetch: Fetch<T, E>, cursor: Option<string>, pages: nat): Walk<T, E>
    decreases pages
  {
    if pages == 0 then TooLong
    else match fetch(cursor)
      case Err(error) => Broke(error)
      case Ok(page) =>
        if page.cursor.None? then Ended(page.items) else After(page.items, WalkFrom(fetch, page.cursor, pages - 1))
  }

  // ---------- a repeated cursor never ends ----------

  ghost predicate Leads<T, E>(fetch: Fetch<T, E>, a: Option<string>, b: Option<string>) {
    fetch(a).Ok? && fetch(a).value.cursor == b && b.Some?
  }

  ghost predicate IsTrail<T, E>(fetch: Fetch<T, E>, trail: seq<Option<string>>) {
    trail != [] && forall i | 0 <= i < |trail| - 1 :: Leads(fetch, trail[i], trail[i + 1])
  }

  // A walk along a trail is too long exactly when what is left of it is too long.
  lemma {:induction false} WalkAlongTrail<T, E>(fetch: Fetch<T, E>, trail: seq<Option<string>>, pages: nat)
    requires IsTrail(fetch, trail)
    ensures WalkFrom(fetch, trail[0], pages).TooLong? <==>
              pages < |trail| || WalkFrom(fetch, trail[|trail| - 1], pages - (|trail| - 1)).TooLong?
    decreases |trail|
  {
    if |trail| > 1 && pages > 0 {
      assert Leads(fetch, trail[0], trail[1]);
      var rest := trail[1..];
      assert IsTrail(fetch, rest) by {
        forall i | 0 <= i < |rest| - 1
          ensures Leads(fetch, rest[i], rest[i + 1])
        {
          assert Leads(fetch, trail[i + 1], trail[i + 2]);
        }
      }
      WalkAlongTrail(fetch, rest, pages - 1);
    }
  }

  lemma {:induction false} CycleNeverEnds<T, E>(fetch: Fetch<T, E>, cycle: seq<Option<string>>, pages: nat)
    requires IsTrail(fetch, cycle) && |cycle| > 1 && cycle[0] == cycle[|cycle| - 1]
    ensures WalkFrom(fetch, cycle[0], pages).TooLong?
    decreases pages
  {
    WalkAlongTrail(fetch, cycle, pages);
    if pages >= |cycle| {
      CycleNeverEnds(fetch, cycle, pages - (|cycle| - 1));
    }
  }

  lemma RepeatedCursorNeverEnds<T, E>(fetch: Fetch<T, E>, trail: seq<Option<string>>, k: nat, pages: nat)
    requires IsTrail(fetch, trail) && k < |trail| - 1 && trail[k] == trail[|trail| - 1]
    ensures WalkFrom(fetch, trail[0], pages).TooLong?
  {
    var cycle, way := trail[k..], trail[..k + 1];
    assert IsTrail(fetch, cycle) by {
      forall i | 0 <= i < |cycle| - 1
        ensures Leads(fetch, cycle[i], cycle[i + 1])
      {
        assert Leads(fetch, trail[k + i], trail[k + i + 1]);
      }
    }
    assert IsTrail(fetch, way) by {
      forall i | 0 <= i < |way| - 1
        ensures Leads(fetch, way[i], way[i + 1])
      {
        assert Leads(fetch, trail[i], trail[i + 1]);
      }
    }
    WalkAlongTrail(fetch, way, pages);
    if pages >= |way| {
      CycleNeverEnds(fetch, cycle, pages - k);
    }
  }

  // ---------- the loop ----------

  lemma TrailGoesOn<T, E>(fetch: Fetch<T, E>, trail: seq<Option<string>>, cursor: Option<string>)
    requires IsTrail(fetch, trail) && cursor.Some?
    requires fetch(trail[|trail| - 1]).Ok? && fetch(trail[|trail| - 1]).value.cursor == cursor
    ensures IsTrail(fetch, trail + [cursor])
  {
    assert Leads(fetch, trail[|trail| - 1], cursor);
    var longer := trail + [cursor];
    forall i | 0 <= i < |longer| - 1
      ensures Leads(fetch, longer[i], longer[i + 1])
    {
      if i < |trail| - 1 {
        assert Leads(fetch, trail[i], trail[i + 1]);
      }
    }
  }

  ghost predicate AllDiffer(trail: seq<Option<string>>) {
    forall i, j | 0 <= i < j < |trail| :: trail[i] != trail[j]
  }

  // The cursors followed are those on the trail, which begins without one.
  ghost predicate AreOnTrail(followed: set<string>, trail: seq<Option<string>>) {
    forall c :: c in followed <==> IsOnTrail(c, trail)
  }

  ghost predicate IsOnTrail(c: string, trail: seq<Option<string>>) {
    exists k | 0 < k < |trail| :: trail[k] == Some(c)
  }

  lemma StillOnTrail(followed: set<string>, trail: seq<Option<string>>, c: string)
    requires AreOnTrail(followed, trail) && trail != [] && trail[0] == None && AllDiffer(trail) && c !in followed
    ensures AreOnTrail(followed + {c}, trail + [Some(c)]) && AllDiffer(trail + [Some(c)])
  {
    var longer := trail + [Some(c)];
    assert !IsOnTrail(c, trail);
    forall other
      ensures other in followed + {c} <==> IsOnTrail(other, longer)
    {
      OnLongerTrail(trail, c, other);
    }
  }

  lemma OnLongerTrail(trail: seq<Option<string>>, c: string, other: string)
    requires trail != []
    ensures IsOnTrail(other, trail + [Some(c)]) <==> IsOnTrail(other, trail) || other == c
  {
    var longer := trail + [Some(c)];
    assert longer[|trail|] == Some(c);
    if IsOnTrail(other, trail) {
      var k :| 0 < k < |trail| && trail[k] == Some(other);
      assert longer[k] == Some(other);
    }
    if IsOnTrail(other, longer) && other != c {
      var k :| 0 < k < |longer| && longer[k] == Some(other);
      assert trail[k] == Some(other);
    }
  }

  lemma FollowedTwiceNeverEnds<T, E>(fetch: Fetch<T, E>, trail: seq<Option<string>>, c: string, pages: nat)
    requires IsTrail(fetch, trail + [Some(c)]) && IsOnTrail(c, trail)
    ensures WalkFrom(fetch, trail[0], pages).TooLong?
  {
    hide WalkFrom, IsTrail;
    var k :| 0 < k < |trail| && trail[k] == Some(c);
    RepeatedCursorNeverEnds(fetch, trail + [Some(c)], k, pages);
  }

  // Every one of so many pages leads on, and all cursors differ, the missing one at first included.
  ghost predicate KeepsGoing<T, E>(fetch: Fetch<T, E>, trail: seq<Option<string>>, pages: nat) {
    IsTrail(fetch, trail) && trail[0] == None && |trail| == pages + 1 && AllDiffer(trail)
  }

  // The cursor is the first to come back, within so many pages.
  ghost predicate ComesBack<T, E>(fetch: Fetch<T, E>, trail: seq<Option<string>>, cursor: string, pages: nat) {
    && 0 < |trail| <= pages && IsTrail(fetch, trail + [Some(cursor)]) && trail[0] == None
    && AllDiffer(trail) && IsOnTrail(cursor, trail)
  }

  lemma {:induction false} TrailsAgree<T, E>(fetch: Fetch<T, E>, a: seq<Option<string>>, b: seq<Option<string>>, n: nat)
    requires IsTrail(fetch, a) && IsTrail(fetch, b) && a[0] == b[0] && n < |a| && n < |b|
    ensures a[n] == b[n]
  {
    if n > 0 {
      TrailsAgree(fetch, a, b, n - 1);
      assert Leads(fetch, a[n - 1], a[n]) && Leads(fetch, b[n - 1], b[n]);
    }
  }

  // A trail whose cursors differ is no longer than one that has come back.
  lemma ComesBackFirst<T, E>(fetch: Fetch<T, E>, trail: seq<Option<string>>, cursor: string, pages: nat,
                             other: seq<Option<string>>)
    requires ComesBack(fetch, trail, cursor, pages)
    requires IsTrail(fetch, other) && other[0] == None && AllDiffer(other)
    ensures |other| <= |trail|
  {
    hide IsTrail;
    if |other| > |trail| {
      var longer := trail + [Some(cursor)];
      var k :| 0 < k < |trail| && trail[k] == Some(cursor);
      TrailsAgree(fetch, longer, other, k);
      TrailsAgree(fetch, longer, other, |trail|);
      assert false;
    }
  }

  lemma Shortened<T, E>(fetch: Fetch<T, E>, trail: seq<Option<string>>, cursor: Option<string>)
    requires trail != [] && IsTrail(fetch, trail + [cursor])
    ensures IsTrail(fetch, trail)
  {
    hide Leads;
    var longer := trail + [cursor];
    forall i | 0 <= i < |trail| - 1
      ensures Leads(fetch, trail[i], trail[i + 1])
    {
      assert Leads(fetch, longer[i], longer[i + 1]);
    }
  }

  lemma OneComesBack<T, E>(fetch: Fetch<T, E>, pages: nat, trail: seq<Option<string>>, cursor: string,
                           other: seq<Option<string>>, another: string)
    requires ComesBack(fetch, trail, cursor, pages) && ComesBack(fetch, other, another, pages)
    ensures cursor == another
  {
    hide IsTrail, AllDiffer, IsOnTrail;
    Shortened(fetch, trail, Some(cursor));
    Shortened(fetch, other, Some(another));
    ComesBackFirst(fetch, trail, cursor, pages, other);
    ComesBackFirst(fetch, other, another, pages, trail);
    TrailsAgree(fetch, trail + [Some(cursor)], other + [Some(another)], |trail|);
  }

  // Coming back, going on and ending within the limit exclude each other.
  lemma OneOutcome<T, E>(fetch: Fetch<T, E>, pages: nat)
    ensures forall trail | KeepsGoing(fetch, trail, pages) :: WalkFrom(fetch, None, pages).TooLong?
    ensures forall trail, c | ComesBack(fetch, trail, c, pages) :: WalkFrom(fetch, None, pages).TooLong?
    ensures forall trail, c, other | ComesBack(fetch, trail, c, pages) :: !KeepsGoing(fetch, other, pages)
    ensures forall trail, c, other, b | ComesBack(fetch, trail, c, pages) && ComesBack(fetch, other, b, pages) ::
              b == c
  {
    hide IsTrail, AllDiffer, IsOnTrail, WalkFrom;
    forall trail | KeepsGoing(fetch, trail, pages)
      ensures WalkFrom(fetch, None, pages).TooLong?
    {
      WalkAlongTrail(fetch, trail, pages);
    }
    forall trail, c | ComesBack(fetch, trail, c, pages)
      ensures WalkFrom(fetch, None, pages).TooLong?
      ensures forall other :: !KeepsGoing(fetch, other, pages)
    {
      FollowedTwiceNeverEnds(fetch, trail, c, pages);
      forall other
        ensures !KeepsGoing(fetch, other, pages)
      {
        if KeepsGoing(fetch, other, pages) {
          ComesBackFirst(fetch, trail, c, pages, other);
          assert false;
        }
      }
    }
    forall trail, c, other, b | ComesBack(fetch, trail, c, pages) && ComesBack(fetch, other, b, pages)
      ensures b == c
    {
      OneComesBack(fetch, pages, trail, c, other, b);
    }
  }

  // One more page of a walk.
  lemma WalkOn<T, E>(fetch: Fetch<T, E>, cursor: Option<string>, pages: nat, items: seq<T>)
    requires pages > 0 && fetch(cursor).Ok? && fetch(cursor).value.cursor.Some?
    ensures After(items, WalkFrom(fetch, cursor, pages))
         == After(items + fetch(cursor).value.items, WalkFrom(fetch, fetch(cursor).value.cursor, pages - 1))
  {
    var page := fetch(cursor).value;
    var later := WalkFrom(fetch, page.cursor, pages - 1);
    assert later.Ended? ==> items + (page.items + later.items) == items + page.items + later.items;
  }

  // Collecting returns the whole listing exactly when it ends within the limit, a fetch failure
  // exactly when the walk meets it, refuses the cursor that comes back first exactly when one does
  // within the limit, and then the listing would not end under any limit, and reaches the limit
  // exactly when the listing keeps going with cursors that all differ.
  method CollectPages<T, E>(fetch: Fetch<T, E>, maxPages: nat) returns (r: Result<seq<T>, PagingFailure<E>>)
    ensures forall items :: r == Ok(items) <==> WalkFrom(fetch, None, maxPages) == Ended(items)
    ensures forall error :: r == Err(FetchFailed(error)) <==> WalkFrom(fetch, None, maxPages) == Broke(error)
    ensures r.Err? && r.error.CursorRepeated? ==> forall pages: nat :: WalkFrom(fetch, None, pages).TooLong?
    ensures forall c :: r == Err(CursorRepeated(c)) <==> exists trail :: ComesBack(fetch, trail, c, maxPages)
    ensures r == Err(LimitExceeded) <==> exists trail :: KeepsGoing(fetch, trail, maxPages)
  {
    hide AreOnTrail, IsOnTrail, AllDiffer, IsTrail, Leads;
    var items: seq<T> := [];
    var followed: set<string> := {};
    var cursor: Option<string> := None;
    ghost var whole := WalkFrom(fetch, None, maxPages);
    ghost var trail := [cursor];
    assert whole.Ended? ==> [] + whole.items == whole.items;
    NothingFollowed(fetch);
    OneOutcome(fetch, maxPages);
    for pages := 0 to maxPages
      invariant whole == After(items, WalkFrom(fetch, cursor, maxPages - pages))
      invariant |trail| == pages + 1 && trail[0] == None && trail[pages] == cursor
      invariant IsTrail(fetch, trail) && AllDiffer(trail) && AreOnTrail(followed, trail)
    {
      var page := fetch(cursor);
      if page.Err? {
        return Err(FetchFailed(page.error));
      }
      if page.value.cursor.None? {
        return Ok(items + page.value.items);
      }
      WalkOn(fetch, cursor, maxPages - pages, items);
      TrailGoesOn(fetch, trail, page.value.cursor);
      items := items + page.value.items;
      cursor := page.value.cursor;
      if cursor.value in followed {
        FollowedIsOnTrail(followed, trail, cursor.value);
        forall n: nat
          ensures WalkFrom(fetch, None, n).TooLong?
        {
          FollowedTwiceNeverEnds(fetch, trail, cursor.value, n);
        }
        assert ComesBack(fetch, trail, cursor.value, maxPages);
        return Err(CursorRepeated(cursor.value));
      }
      StillOnTrail(followed, trail, cursor.value);
      trail := trail + [cursor];
      followed := followed + {cursor.value};
    }
    assert KeepsGoing(fetch, trail, maxPages);
    return Err(LimitExceeded);
  }

  lemma NothingFollowed<T, E>(fetch: Fetch<T, E>)
    ensures AreOnTrail({}, [None]) && IsTrail(fetch, [None]) && AllDiffer([None])
  {
  }

  lemma FollowedIsOnTrail(followed: set<string>, trail: seq<Option<string>>, c: string)
    requires AreOnTrail(followed, trail) && c in followed
    ensures IsOnTrail(c, trail)
  {
  }
}

/**
 * The recent-searches list: most recent first, at most MaxRecent entries, one entry per user id.
 * A successful lookup upserts its record (`[data, ...prev.filter(r => r.id !== data.id)].slice(0, 5)`);
 * a card is removed with the same filter.
 */
module History {
  import opened Wrappers
  import opened Sequences

  const MaxRecent: nat := 5

  /**
   * A user record as the public endpoint returns it. Only `id` matters to the list logic; the
   * other fields are carried along and displayed.
   */
  datatype UserRecord = UserRecord(
    id: int,
    name: string,
    email: string,
    phone: string,
    website: string,
    companyName: Option<string>,
    city: Option<string>,
    street: Option<string>)

  /** No record in `rs` has user id `x`. */
  predicate Absent(rs: seq<UserRecord>, x: int) {
    forall i :: 0 <= i < |rs| ==> rs[i].id != x
  }

  /** No two records in `rs` share a user id. */
  predicate UniqueIds(rs: seq<UserRecord>) {
    forall i, j :: 0 <= i < j < |rs| ==> rs[i].id != rs[j].id
  }

  /** The list filtered to the records whose id differs from `x` (`rs.filter(r => r.id !== x)`). */
  function WithoutId(rs: seq<UserRecord>, x: int): (r: seq<UserRecord>)
    ensures Absent(r, x)
    ensures forall e :: e in r <==> e in rs && e.id != x
    ensures |r| <= |rs|
  {
    if rs == [] then []
    else if rs[0].id != x then [rs[0]] + WithoutId(rs[1..], x)
    else WithoutId(rs[1..], x)
  }

  /** Filtering keeps the surviving records in their original relative order. */
  lemma {:induction false} WithoutIdKeepsOrder(rs: seq<UserRecord>, x: int)
    ensures IsSubsequence(WithoutId(rs, x), rs)
  {
    if rs != [] {
      WithoutIdKeepsOrder(rs[1..], x);
      if rs[0].id != x {
        assert WithoutId(rs, x)[1..] == WithoutId(rs[1..], x);
      }
    }
  }

  /** Removing an id that is not in the list leaves the list exactly as it was. */
  lemma {:induction false} WithoutAbsentId(rs: seq<UserRecord>, x: int)
    requires Absent(rs, x)
    ensures WithoutId(rs, x) == rs
  {
    if rs != [] {
      WithoutAbsentId(rs[1..], x);
    }
  }

  /** Filtering a list with distinct ids leaves a list with distinct ids. */
  lemma {:induction false} WithoutIdKeepsUnique(rs: seq<UserRecord>, x: int)
    requires UniqueIds(rs)
    ensures UniqueIds(WithoutId(rs, x))
  {
    if rs != [] {
      WithoutIdKeepsUnique(rs[1..], x);
      var r := WithoutId(rs, x);
      if rs[0].id != x {
        assert r == [rs[0]] + WithoutId(rs[1..], x);
        forall j | 1 <= j < |r| ensures r[0].id != r[j].id {
          assert r[j] in rs[1..];
        }
      }
    }
  }

  /** The filter distributes over concatenation. */
  lemma {:induction false} WithoutIdConcat(a: seq<UserRecord>, b: seq<UserRecord>, x: int)
    ensures WithoutId(a + b, x) == WithoutId(a, x) + WithoutId(b, x)
  {
    if a == [] {
      assert a + b == b;
    } else {
      assert (a + b)[0] == a[0];
      assert (a + b)[1..] == a[1..] + b;
      WithoutIdConcat(a[1..], b, x);
    }
  }

  /** Filters for two ids may be applied in either order. */
  lemma {:induction false} WithoutIdCommutes(rs: seq<UserRecord>, x: int, y: int)
    ensures WithoutId(WithoutId(rs, x), y) == WithoutId(WithoutId(rs, y), x)
  {
    if rs != [] {
      WithoutIdCommutes(rs[1..], x, y);
    }
  }

  /** Upsert of a freshly fetched record into the recent list. */
  function Upsert(prev: seq<UserRecord>, d: UserRecord): (r: seq<UserRecord>)
    ensures |r| > 0 && r[0] == d
    ensures |r| <= MaxRecent && |r| <= |prev| + 1
    ensures Absent(r[1..], d.id)
  {
    Take([d] + WithoutId(prev, d.id), MaxRecent)
  }

  /**
   * Behind the new head come the older records without d's id, in their old order; only the
   * oldest of them are dropped, and only as many as needed to stay within MaxRecent.
   */
  lemma UpsertKeepsNewestOld(prev: seq<UserRecord>, d: UserRecord)
    ensures IsSubsequence(Upsert(prev, d)[1..], prev)
    ensures Upsert(prev, d)[1..] <= WithoutId(prev, d.id)
    ensures |Upsert(prev, d)| == if 1 + |WithoutId(prev, d.id)| <= MaxRecent
                                 then 1 + |WithoutId(prev, d.id)| else MaxRecent
  {
    var f := WithoutId(prev, d.id);
    var r := Upsert(prev, d);
    TakeCons(d, f, MaxRecent - 1);
    assert r[1..] == Take(f, MaxRecent - 1);
    WithoutIdKeepsOrder(prev, d.id);
    PrefixOfSubsequence(f, prev, |r| - 1);
    assert r[1..] == f[..|r| - 1];
  }

  /** Upsert keeps the ids of a duplicate-free list distinct. */
  lemma UpsertKeepsUnique(prev: seq<UserRecord>, d: UserRecord)
    requires UniqueIds(prev)
    ensures UniqueIds(Upsert(prev, d))
  {
    var f := WithoutId(prev, d.id);
    var r := Upsert(prev, d);
    WithoutIdKeepsUnique(prev, d.id);
    UpsertKeepsNewestOld(prev, d);
    assert r[1..] <= f;
    forall i, j | 0 <= i < j < |r| ensures r[i].id != r[j].id {
      if i > 0 {
        assert r[i] == f[i - 1] && r[j] == f[j - 1];
      } else {
        assert r[j] == r[1..][j - 1];
      }
    }
  }

  /** Fetching the same id again replaces its entry: only the latest record survives, at the front. */
  lemma RefetchReplaces(prev: seq<UserRecord>, d1: UserRecord, d2: UserRecord)
    requires d1.id == d2.id
    ensures Upsert(Upsert(prev, d1), d2) == Upsert(prev, d2)
  {
    var k := d1.id;
    var f := WithoutId(prev, k);
    var mid := Upsert(prev, d1);
    TakeCons(d1, f, MaxRecent - 1);
    assert mid == [d1] + Take(f, MaxRecent - 1);
    WithoutIdConcat([d1], Take(f, MaxRecent - 1), k);
    assert WithoutId([d1], k) == [];
    assert Absent(Take(f, MaxRecent - 1), k);
    WithoutAbsentId(Take(f, MaxRecent - 1), k);
    assert WithoutId(mid, k) == Take(f, MaxRecent - 1);
    TakeCons(d2, Take(f, MaxRecent - 1), MaxRecent - 1);
    TakeCons(d2, f, MaxRecent - 1);
  }

  /** The recent list after successful lookups of `fetched` (oldest first), starting empty. */
  function Replay(fetched: seq<UserRecord>): (r: seq<UserRecord>)
    ensures |r| <= MaxRecent
  {
    if fetched == [] then []
    else Upsert(Replay(fetched[..|fetched| - 1]), fetched[|fetched| - 1])
  }

  /**
   * Reference ordering: for every id ever fetched, its most recently fetched record, listed from the
   * most recent lookup to the oldest, without any length limit.
   */
  function LatestFirst(fetched: seq<UserRecord>): seq<UserRecord>
    decreases |fetched|
  {
    if fetched == [] then []
    else
      var d := fetched[|fetched| - 1];
      [d] + LatestFirst(WithoutId(fetched[..|fetched| - 1], d.id))
  }

  /** The first record in `rs` with user id `x`, if any. */
  function FindId(rs: seq<UserRecord>, x: int): (r: Option<UserRecord>)
    ensures r.Some? ==> r.value in rs && r.value.id == x
    ensures r.None? <==> Absent(rs, x)
  {
    if rs == [] then None
    else if rs[0].id == x then Some(rs[0])
    else FindId(rs[1..], x)
  }

  /** The record most recently fetched with user id `x`, if any. */
  function LastFetched(fetched: seq<UserRecord>, x: int): Option<UserRecord>
  {
    if fetched == [] then None
    else if fetched[|fetched| - 1].id == x then Some(fetched[|fetched| - 1])
    else LastFetched(fetched[..|fetched| - 1], x)
  }

  /** Filtering out one id does not change the latest record of any other id. */
  lemma {:induction false} LastFetchedIgnoresOtherIds(fetched: seq<UserRecord>, k: int, x: int)
    requires k != x
    ensures LastFetched(WithoutId(fetched, k), x) == LastFetched(fetched, x)
    decreases |fetched|
  {
    if fetched != [] {
      var n := |fetched|;
      var p, d := fetched[..n - 1], fetched[n - 1];
      assert fetched == p + [d];
      WithoutIdConcat(p, [d], k);
      LastFetchedIgnoresOtherIds(p, k, x);
      var q := WithoutId(p, k);
      if d.id != k {
        assert WithoutId([d], k) == [d];
        assert (q + [d])[..|q|] == q;
      } else {
        assert WithoutId([d], k) == [];
        assert WithoutId(fetched, k) == q;
      }
    }
  }

  /**
   * The reference list shows, for every user id, exactly the record most recently fetched with
   * that id, and no entry for an id that was never fetched.
   */
  lemma {:induction false} LatestFirstShowsLatestRecord(fetched: seq<UserRecord>, x: int)
    ensures FindId(LatestFirst(fetched), x) == LastFetched(fetched, x)
    decreases |fetched|
  {
    if fetched != [] {
      var n := |fetched|;
      var p, d := fetched[..n - 1], fetched[n - 1];
      var rest := LatestFirst(WithoutId(p, d.id));
      assert LatestFirst(fetched) == [d] + rest;
      assert ([d] + rest)[1..] == rest;
      if d.id != x {
        LatestFirstShowsLatestRecord(WithoutId(p, d.id), x);
        LastFetchedIgnoresOtherIds(p, d.id, x);
      }
    }
  }

  /** Filtering the reference list is the reference list of the filtered lookups. */
  lemma {:induction false} LatestFirstCommutesWithFilter(fetched: seq<UserRecord>, x: int)
    ensures WithoutId(LatestFirst(fetched), x) == LatestFirst(WithoutId(fetched, x))
    decreases |fetched|
  {
    if fetched != [] {
      var n := |fetched|;
      var p, d := fetched[..n - 1], fetched[n - 1];
      assert fetched == p + [d];
      var rest := LatestFirst(WithoutId(p, d.id));
      assert LatestFirst(fetched) == [d] + rest;
      WithoutIdConcat([d], rest, x);
      WithoutIdConcat(p, [d], x);
      LatestFirstCommutesWithFilter(WithoutId(p, d.id), x);
      if d.id == x {
        assert WithoutId([d], x) == [];
        assert WithoutId(fetched, x) == WithoutId(p, x);
        WithoutAbsentId(WithoutId(p, x), x);
      } else {
        assert WithoutId([d], x) == [d];
        var q := WithoutId(p, x);
        assert WithoutId(fetched, x) == q + [d];
        assert (q + [d])[..|q|] == q;
        assert LatestFirst(q + [d]) == [d] + LatestFirst(WithoutId(q, d.id));
        WithoutIdCommutes(p, d.id, x);
      }
    }
  }

  /** The reference list never holds two records with the same id. */
  lemma {:induction false} LatestFirstUnique(fetched: seq<UserRecord>)
    ensures UniqueIds(LatestFirst(fetched))
    decreases |fetched|
  {
    if fetched != [] {
      var n := |fetched|;
      var p, d := fetched[..n - 1], fetched[n - 1];
      var rest := LatestFirst(WithoutId(p, d.id));
      LatestFirstUnique(WithoutId(p, d.id));
      LatestFirstCommutesWithFilter(p, d.id);
      assert LatestFirst(fetched) == [d] + rest;
      ConsKeepsUnique(d, rest);
    }
  }

  /** Putting a record in front of a duplicate-free list that lacks its id keeps the ids distinct. */
  lemma ConsKeepsUnique(d: UserRecord, rest: seq<UserRecord>)
    requires Absent(rest, d.id) && UniqueIds(rest)
    ensures UniqueIds([d] + rest)
  {
    var r := [d] + rest;
    forall i, j | 0 <= i < j < |r| ensures r[i].id != r[j].id {
      if i > 0 {
        assert r[i] == rest[i - 1] && r[j] == rest[j - 1];
      } else {
        assert r[j] == rest[j - 1];
      }
    }
  }

  /**
   * Truncating a duplicate-free list before filtering out one id loses nothing among the first
   * `n` survivors, provided one more entry than `n` is kept.
   */
  lemma {:induction false} FilterAfterTake(rs: seq<UserRecord>, x: int, n: nat)
    requires UniqueIds(rs)
    ensures Take(WithoutId(Take(rs, n + 1), x), n) == Take(WithoutId(rs, x), n)
  {
    if rs != [] {
      var h, t := rs[0], rs[1..];
      var tt := Take(t, n);
      assert rs == [h] + t;
      assert UniqueIds(t);
      TakeCons(h, t, n);
      WithoutIdConcat([h], tt, x);
      WithoutIdConcat([h], t, x);
      if h.id == x {
        HeadIdAbsentFromTail(rs);
        assert WithoutId([h], x) == [];
        WithoutAbsentId(t, x);
        WithoutAbsentId(tt, x);
      } else if n > 0 {
        assert WithoutId([h], x) == [h];
        FilterAfterTake(t, x, n - 1);
        TakeCons(h, WithoutId(tt, x), n - 1);
        TakeCons(h, WithoutId(t, x), n - 1);
      }
    }
  }

  /** In a duplicate-free list the head's id occurs nowhere in the tail. */
  lemma HeadIdAbsentFromTail(rs: seq<UserRecord>)
    requires rs != [] && UniqueIds(rs)
    ensures Absent(rs[1..], rs[0].id)
  {
  }

  /** Upserting into a truncated duplicate-free list agrees with upserting into the whole list. */
  lemma UpsertAfterTake(l: seq<UserRecord>, d: UserRecord)
    requires UniqueIds(l)
    ensures Upsert(Take(l, MaxRecent), d) == Take([d] + WithoutId(l, d.id), MaxRecent)
  {
    FilterAfterTake(l, d.id, MaxRecent - 1);
    TakeCons(d, WithoutId(Take(l, MaxRecent), d.id), MaxRecent - 1);
    TakeCons(d, WithoutId(l, d.id), MaxRecent - 1);
  }

  /**
   * Most recent first: after any run of successful lookups from an empty list, the recent list is
   * the MaxRecent most recent distinct lookups, newest first, each with its latest record.
   */
  lemma {:induction false} ReplayIsLatestFirst(fetched: seq<UserRecord>)
    ensures Replay(fetched) == Take(LatestFirst(fetched), MaxRecent)
    decreases |fetched|
  {
    if fetched != [] {
      var n := |fetched|;
      var p, d := fetched[..n - 1], fetched[n - 1];
      ReplayIsLatestFirst(p);
      LatestFirstUnique(p);
      UpsertAfterTake(LatestFirst(p), d);
      LatestFirstCommutesWithFilter(p, d.id);
      assert LatestFirst(fetched) == [d] + LatestFirst(WithoutId(p, d.id));
    }
  }
}

/** The talker file and what the handlers do to it (index.js:22-34, 129-137,
    147-156, 159-165). The file is the field `talkers` of a `Store`; each
    handler loads it, transforms the loaded array and writes the whole array
    back. */
module TalkerStore {
  import opened Types

  // ---------------------------------------------------------------------------
  // Filters by id

  /** The records whose id is `k`, in file order. */
  function WithId(s: seq<Talker>, k: int): (r: seq<Talker>)
    ensures forall x :: x in r <==> x in s && x.id == k
  {
    if s == [] then []
    else if s[0].id == k then [s[0]] + WithId(s[1..], k)
    else WithId(s[1..], k)
  }

  /** `talkers.filter((talker) => talker.id !== id)`: the records whose id is
      not `k`, in file order. */
  function Without(s: seq<Talker>, k: int): (r: seq<Talker>)
    ensures forall x :: x in r <==> x in s && x.id != k
  {
    if s == [] then []
    else if s[0].id == k then Without(s[1..], k)
    else [s[0]] + Without(s[1..], k)
  }

  /** Both filters work element by element, so they keep the file order. */
  lemma FiltersDistribute(a: seq<Talker>, b: seq<Talker>, k: int)
    ensures WithId(a + b, k) == WithId(a, k) + WithId(b, k)
    ensures Without(a + b, k) == Without(a, k) + Without(b, k)
  {
    WithIdDistributes(a, b, k);
    WithoutDistributes(a, b, k);
  }

  lemma {:induction false} WithIdDistributes(a: seq<Talker>, b: seq<Talker>, k: int)
    ensures WithId(a + b, k) == WithId(a, k) + WithId(b, k)
  {
    if a == [] {
      assert a + b == b;
    } else {
      var ab := a + b;
      assert ab[1..] == a[1..] + b;
      WithIdDistributes(a[1..], b, k);
      if a[0].id == k {
        calc {
          WithId(ab, k);
          [a[0]] + WithId(ab[1..], k);
          [a[0]] + (WithId(a[1..], k) + WithId(b, k));
          ([a[0]] + WithId(a[1..], k)) + WithId(b, k);
        }
      } else {
        calc {
          WithId(ab, k);
          WithId(ab[1..], k);
          WithId(a[1..], k) + WithId(b, k);
        }
      }
    }
  }

  lemma {:induction false} WithoutDistributes(a: seq<Talker>, b: seq<Talker>, k: int)
    ensures Without(a + b, k) == Without(a, k) + Without(b, k)
  {
    if a == [] {
      assert a + b == b;
    } else {
      var ab := a + b;
      assert ab[1..] == a[1..] + b;
      WithoutDistributes(a[1..], b, k);
      if a[0].id == k {
        calc {
          Without(ab, k);
          Without(ab[1..], k);
          Without(a[1..], k) + Without(b, k);
        }
      } else {
        calc {
          Without(ab, k);
          [a[0]] + Without(ab[1..], k);
          [a[0]] + (Without(a[1..], k) + Without(b, k));
          ([a[0]] + Without(a[1..], k)) + Without(b, k);
        }
      }
    }
  }

  /** Every record goes to exactly one of the two filters. */
  lemma {:induction false} FiltersPartition(s: seq<Talker>, k: int)
    ensures |WithId(s, k)| + |Without(s, k)| == |s|
    ensures multiset(WithId(s, k)) + multiset(Without(s, k)) == multiset(s)
  {
    if s != [] {
      FiltersPartition(s[1..], k);
      assert s == [s[0]] + s[1..];
    }
  }

  /** Removing an id leaves the records of every other id as they were. */
  lemma {:induction false} WithIdOfWithout(s: seq<Talker>, k: int, j: int)
    ensures WithId(Without(s, k), j) == if j == k then [] else WithId(s, j)
  {
    if s != [] {
      WithIdOfWithout(s[1..], k, j);
      if s[0].id != k {
        WithIdDistributes([s[0]], Without(s[1..], k), j);
      }
    }
  }

  /** Removing an id changes the file exactly when some record has that id. */
  lemma {:induction false} WithoutUnchangedIff(s: seq<Talker>, k: int)
    ensures Without(s, k) == s <==> WithId(s, k) == []
  {
    FiltersPartition(s, k);
    if WithId(s, k) == [] {
      WithoutOfAbsent(s, k);
    }
  }

  lemma {:induction false} WithoutOfAbsent(s: seq<Talker>, k: int)
    requires forall x :: x in s ==> x.id != k
    ensures Without(s, k) == s
  {
    if s != [] {
      WithoutOfAbsent(s[1..], k);
      assert s == [s[0]] + s[1..];
    }
  }

  /** Removing the same id twice is removing it once. */
  lemma WithoutIdempotent(s: seq<Talker>, k: int)
    ensures Without(Without(s, k), k) == Without(s, k)
  {
    WithoutOfAbsent(Without(s, k), k);
  }

  /** Every record's id occurs exactly once in the file. */
  predicate UniqueIds(s: seq<Talker>)
  {
    forall i :: 0 <= i < |s| ==> |WithId(s, s[i].id)| == 1
  }

  // ---------------------------------------------------------------------------
  // Lookup

  /** `talkers.find((t) => t.id === id)`: the first record with that id. */
  function FindById(s: seq<Talker>, id: int): (r: Option<Talker>)
    ensures r.None? <==> forall i :: 0 <= i < |s| ==> s[i].id != id
    ensures r.Some? ==>
              exists i :: 0 <= i < |s| && s[i] == r.value && r.value.id == id &&
                forall j :: 0 <= j < i ==> s[j].id != id
  {
    if s == [] then None
    else if s[0].id == id then Some(s[0])
    else
      var r := FindById(s[1..], id);
      assert forall i :: 0 < i < |s| ==> s[i] == s[1..][i - 1];
      r
  }

  /** The record lookup returns is the first of those `WithId` selects. */
  lemma {:induction false} FindByIdIsFirstWithId(s: seq<Talker>, id: int)
    ensures FindById(s, id) == if WithId(s, id) == [] then None else Some(WithId(s, id)[0])
  {
    if s != [] {
      FindByIdIsFirstWithId(s[1..], id);
    }
  }

  // ---------------------------------------------------------------------------
  // Sorting by descending id

  /** Every record's id is at least that of the records after it. */
  predicate SortedDesc(s: seq<Talker>)
  {
    forall i, j :: 0 <= i < j < |s| ==> s[i].id >= s[j].id
  }

  /** Places `x` before the first record whose id is not greater than its own. */
  function InsertDesc(x: Talker, s: seq<Talker>): (r: seq<Talker>)
    ensures |r| == |s| + 1
    ensures multiset(r) == multiset(s) + multiset{x}
  {
    if s == [] then [x]
    else if x.id >= s[0].id then [x] + s
    else
      assert s == [s[0]] + s[1..];
      [s[0]] + InsertDesc(x, s[1..])
  }

  /** `talkers.sort((a, b) => b.id - a.id)`: a stable sort by descending id,
      written as an insertion sort. */
  function SortByIdDesc(s: seq<Talker>): (r: seq<Talker>)
    ensures |r| == |s|
    ensures multiset(r) == multiset(s)
  {
    if s == [] then []
    else
      assert s == [s[0]] + s[1..];
      InsertDesc(s[0], SortByIdDesc(s[1..]))
  }

  /** A record followed by a descending sequence whose first id is not
      greater than its own is descending. */
  lemma ConsSorted(h: Talker, t: seq<Talker>)
    requires SortedDesc(t)
    requires t != [] ==> h.id >= t[0].id
    ensures SortedDesc([h] + t)
  {
    var r := [h] + t;
    forall i, j | 0 <= i < j < |r| ensures r[i].id >= r[j].id {
      if i == 0 {
        assert r[j] == t[j - 1] && t[0].id >= t[j - 1].id;
      } else {
        assert r[i] == t[i - 1] && r[j] == t[j - 1];
      }
    }
  }

  lemma {:induction false} InsertDescSorted(x: Talker, s: seq<Talker>)
    requires SortedDesc(s)
    ensures SortedDesc(InsertDesc(x, s))
  {
    if s == [] {
    } else if x.id >= s[0].id {
      ConsSorted(x, s);
    } else {
      SortedTail(s);
      InsertDescSorted(x, s[1..]);
      var rest := InsertDesc(x, s[1..]);
      assert rest[0] == x || rest[0] == s[1];
      ConsSorted(s[0], rest);
    }
  }

  lemma {:induction false} SortByIdDescSorted(s: seq<Talker>)
    ensures SortedDesc(SortByIdDesc(s))
  {
    if s != [] {
      SortByIdDescSorted(s[1..]);
      InsertDescSorted(s[0], SortByIdDesc(s[1..]));
    }
  }

  /** Inserting keeps the records of one id in their order, `x` first. */
  lemma {:induction false} InsertDescStable(x: Talker, s: seq<Talker>, k: int)
    ensures WithId(InsertDesc(x, s), k) == WithId([x], k) + WithId(s, k)
  {
    if s == [] {
    } else if x.id >= s[0].id {
      FiltersDistribute([x], s, k);
    } else {
      InsertDescStable(x, s[1..], k);
      FiltersDistribute([s[0]], InsertDesc(x, s[1..]), k);
      FiltersDistribute([s[0]], s[1..], k);
      assert [s[0]] + s[1..] == s;
    }
  }

  /** The sort is stable: records that share an id keep their relative order. */
  lemma {:induction false} SortByIdDescStable(s: seq<Talker>, k: int)
    ensures WithId(SortByIdDesc(s), k) == WithId(s, k)
  {
    if s != [] {
      SortByIdDescStable(s[1..], k);
      InsertDescStable(s[0], SortByIdDesc(s[1..]), k);
      FiltersDistribute([s[0]], s[1..], k);
      assert [s[0]] + s[1..] == s;
    }
  }

  /** A sorted, stable rearrangement is unique: any sequence with both
      properties is the one `SortByIdDesc` computes. */
  lemma {:induction false} SortByIdDescUnique(s: seq<Talker>, t: seq<Talker>)
    requires SortedDesc(t)
    requires forall k :: WithId(t, k) == WithId(s, k)
    ensures t == SortByIdDesc(s)
  {
    var r := SortByIdDesc(s);
    SortByIdDescSorted(s);
    forall k ensures WithId(r, k) == WithId(t, k) {
      SortByIdDescStable(s, k);
    }
    SortedWithSameGroupsEqual(r, t);
  }

  lemma SortedTail(s: seq<Talker>)
    requires s != [] && SortedDesc(s)
    ensures SortedDesc(s[1..])
    ensures forall x :: x in s ==> x.id <= s[0].id
  {
    forall i, j | 0 <= i < j < |s[1..]| ensures s[1..][i].id >= s[1..][j].id {
      assert s[1..][i] == s[i + 1] && s[1..][j] == s[j + 1];
    }
  }

  lemma HeadInGroup(s: seq<Talker>)
    ensures s != [] ==> s[0] in WithId(s, s[0].id)
  {
  }

  lemma {:induction false} SortedWithSameGroupsEqual(a: seq<Talker>, b: seq<Talker>)
    requires SortedDesc(a) && SortedDesc(b)
    requires forall k :: WithId(a, k) == WithId(b, k)
    ensures a == b
    decreases |a|
  {
    HeadInGroup(a);
    HeadInGroup(b);
    if a == [] || b == [] {
      // The first record of the other one would be in only one of its groups.
    } else {
      SortedTail(a);
      SortedTail(b);
      // The first record of each has the greatest id of both.
      assert a[0] in WithId(b, a[0].id);
      assert b[0] in WithId(a, b[0].id);
      var k := a[0].id;
      assert k == b[0].id;
      assert WithId(a, k) == [a[0]] + WithId(a[1..], k);
      assert WithId(b, k) == [b[0]] + WithId(b[1..], k);
      assert WithId(a, k) == WithId(b, k);
      assert a[0] == WithId(a, k)[0] == WithId(b, k)[0] == b[0];
      forall m ensures WithId(a[1..], m) == WithId(b[1..], m) {
        assert WithId(a, m) == WithId(b, m);
        if m == k {
          assert WithId(a, m)[1..] == WithId(a[1..], m);
          assert WithId(b, m)[1..] == WithId(b[1..], m);
        } else {
          assert WithId(a, m) == WithId(a[1..], m);
          assert WithId(b, m) == WithId(b[1..], m);
        }
      }
      SortedWithSameGroupsEqual(a[1..], b[1..]);
      assert a == [a[0]] + a[1..] && b == [b[0]] + b[1..];
    }
  }

  // ---------------------------------------------------------------------------
  // The id of a new record

  /** The largest id in a non-empty file. */
  function MaxId(s: seq<Talker>): (m: int)
    requires s != []
    ensures forall x :: x in s ==> x.id <= m
    ensures exists x :: x in s && x.id == m
  {
    if |s| == 1 then s[0].id
    else
      var m := MaxId(s[1..]);
      assert forall x :: x in s ==> x == s[0] || x in s[1..];
      if s[0].id >= m then s[0].id else m
  }

  /** `talkers.sort(...)[0].id + 1`: one more than the id of the first
      record after sorting. */
  function NextId(s: seq<Talker>): int
    requires s != []
  {
    SortByIdDesc(s)[0].id + 1
  }

  /** The new id is one more than the largest id in the file. */
  lemma NextIdIsMaxPlusOne(s: seq<Talker>)
    requires s != []
    ensures NextId(s) == MaxId(s) + 1
    ensures forall x :: x in s ==> x.id < NextId(s)
  {
    var r := SortByIdDesc(s);
    SortByIdDescSorted(s);
    assert r[0] in multiset(s);
    forall x | x in s ensures x.id <= r[0].id {
      assert x in multiset(r);
      var j :| 0 <= j < |r| && r[j] == x;
    }
    var x :| x in s && x.id == MaxId(s);
  }

  // ---------------------------------------------------------------------------
  // The effect of create, update and delete on the file

  /** After create, every id is still unique, and looking up the new id finds
      the new record. */
  lemma CreateKeepsIds(s: seq<Talker>, t: Talker)
    requires s != [] && t.id == NextId(s)
    ensures UniqueIds(s) ==> UniqueIds(SortByIdDesc(s) + [t])
    ensures FindById(SortByIdDesc(s) + [t], t.id) == Some(t)
    ensures WithId(SortByIdDesc(s) + [t], t.id) == [t]
  {
    NextIdIsMaxPlusOne(s);
    var r := SortByIdDesc(s);
    forall x | x in r ensures x.id < t.id {
      assert x in multiset(s);
    }
    if WithId(r, t.id) != [] {
      assert WithId(r, t.id)[0] in WithId(r, t.id);
    }
    FiltersDistribute(r, [t], t.id);
    FindByIdIsFirstWithId(r + [t], t.id);
    if UniqueIds(s) {
      var n := r + [t];
      forall i | 0 <= i < |n| ensures |WithId(n, n[i].id)| == 1 {
        var k := n[i].id;
        FiltersDistribute(r, [t], k);
        if i < |r| {
          SortByIdDescStable(s, k);
          assert n[i] in multiset(s);
          var j :| 0 <= j < |s| && s[j] == n[i];
          assert k != t.id;
        }
      }
    }
  }

  /** After update, exactly one record has the id, it is the replacement, and
      every other record is kept in order. */
  lemma UpdateKeepsIds(s: seq<Talker>, t: Talker)
    ensures UniqueIds(s) ==> UniqueIds(Without(s, t.id) + [t])
    ensures WithId(Without(s, t.id) + [t], t.id) == [t]
    ensures FindById(Without(s, t.id) + [t], t.id) == Some(t)
    ensures forall k :: k != t.id ==> WithId(Without(s, t.id) + [t], k) == WithId(s, k)
  {
    var w := Without(s, t.id);
    var n := w + [t];
    forall k ensures WithId(n, k) == if k == t.id then [t] else WithId(s, k) {
      FiltersDistribute(w, [t], k);
      WithIdOfWithout(s, t.id, k);
    }
    FindByIdIsFirstWithId(n, t.id);
    if UniqueIds(s) {
      forall i | 0 <= i < |n| ensures |WithId(n, n[i].id)| == 1 {
        if i < |w| {
          assert n[i] in w;
          var j :| 0 <= j < |s| && s[j] == n[i];
        }
      }
    }
  }

  /** After delete, no record has the id, every other record is kept in order,
      and ids stay unique. */
  lemma DeleteKeepsIds(s: seq<Talker>, k: int)
    ensures UniqueIds(s) ==> UniqueIds(Without(s, k))
    ensures WithId(Without(s, k), k) == []
    ensures FindById(Without(s, k), k) == None
    ensures forall j :: j != k ==> WithId(Without(s, k), j) == WithId(s, j)
  {
    var w := Without(s, k);
    forall j ensures WithId(w, j) == if j == k then [] else WithId(s, j) {
      WithIdOfWithout(s, k, j);
    }
    if UniqueIds(s) {
      forall i | 0 <= i < |w| ensures |WithId(w, w[i].id)| == 1 {
        assert w[i] in w;
        var j :| 0 <= j < |s| && s[j] == w[i];
      }
    }
  }

  // ---------------------------------------------------------------------------
  // The file

  class Store {
    /** The array held in talker.json. */
    var talkers: seq<Talker>

    constructor (initial: seq<Talker>)
      ensures talkers == initial
    {
      talkers := initial;
    }

    /** The POST /talker handler after validation (index.js:130-136). The
        loaded array is sorted by descending id, the new record gets one more
        than the first id and is appended, and the array is written back. On an
        empty file `[0]` is undefined, reading its `id` throws, nothing is
        written, and the result is `None`. */
    method Create(name: string, age: int, talk: Talk) returns (r: Option<Talker>)
      modifies this
      ensures old(talkers) == [] ==> r.None? && talkers == old(talkers)
      ensures old(talkers) != [] ==>
                && r == Some(Talker(NextId(old(talkers)), name, age, talk))
                && talkers == SortByIdDesc(old(talkers)) + [r.value]
                && r.value.id == MaxId(old(talkers)) + 1
                && |talkers| == |old(talkers)| + 1
                && SortedDesc(talkers[..|talkers| - 1])
                && WithId(talkers, r.value.id) == [r.value]
      ensures UniqueIds(old(talkers)) ==> UniqueIds(talkers)
    {
      var loaded := talkers;
      loaded := SortByIdDesc(loaded);
      if loaded == [] {
        return None;
      }
      var t := Talker(loaded[0].id + 1, name, age, talk);
      loaded := loaded + [t];
      talkers := loaded;
      r := Some(t);
      NextIdIsMaxPlusOne(old(talkers));
      CreateKeepsIds(old(talkers), t);
      SortByIdDescSorted(old(talkers));
      assert talkers[..|talkers| - 1] == SortByIdDesc(old(talkers));
    }

    /** The PUT /talker/:id handler after validation (index.js:148-155): every
        record with the id is dropped and the replacement is appended, whether
        or not the id was there before. */
    method Update(id: int, name: string, age: int, talk: Talk) returns (t: Talker)
      modifies this
      ensures t == Talker(id, name, age, talk)
      ensures talkers == Without(old(talkers), id) + [t]
      ensures WithId(talkers, id) == [t]
      ensures forall k :: k != id ==> WithId(talkers, k) == WithId(old(talkers), k)
      ensures UniqueIds(old(talkers)) ==> UniqueIds(talkers)
    {
      t := Talker(id, name, age, talk);
      var kept := Without(talkers, id);
      kept := kept + [t];
      UpdateKeepsIds(talkers, t);
      talkers := kept;
    }

    /** The DELETE /talker/:id handler (index.js:160-164): every record with
        the id is dropped, and an absent id leaves the file as it was. */
    method Delete(id: int)
      modifies this
      ensures talkers == Without(old(talkers), id)
      ensures WithId(talkers, id) == []
      ensures forall k :: k != id ==> WithId(talkers, k) == WithId(old(talkers), k)
      ensures WithId(old(talkers), id) == [] ==> talkers == old(talkers)
      ensures UniqueIds(old(talkers)) ==> UniqueIds(talkers)
    {
      DeleteKeepsIds(talkers, id);
      WithoutUnchangedIff(talkers, id);
      talkers := Without(talkers, id);
    }
  }
}

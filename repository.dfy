/**
 * The `apod` table behind the Spring Data repository: rows keyed by an
 * AUTO_INCREMENT integer primary key, with the inherited CRUD operations
 * (findAll, findById, save, deleteById, deleteAll, count) and the two
 * declared queries, findByDate and findApodByCopyright.
 */
module Repository {
  import opened Wrappers
  import opened Entities

  /** Each stored record carries the key it is stored under as its own id. */
  ghost predicate KeysAreIds(rows: map<int, NasaApod>)
  {
    forall k :: k in rows ==> rows[k].id == Some(k)
  }

  /** The table invariant: ids are keys, and every key was handed out by the counter. */
  ghost predicate TableInvariant(rows: map<int, NasaApod>, nextId: int)
  {
    1 <= nextId && KeysAreIds(rows) && forall k :: k in rows ==> 1 <= k < nextId
  }

  /** `save` of a record whose id is set and stored updates that row; any other record is inserted. */
  predicate IsUpdate(rows: map<int, NasaApod>, apod: NasaApod)
  {
    apod.id.Some? && apod.id.value in rows
  }

  /** The record as `save` stores and returns it: unchanged on update, with a fresh id on insert. */
  function Stored(rows: map<int, NasaApod>, nextId: int, apod: NasaApod): (r: NasaApod)
    requires TableInvariant(rows, nextId)
    ensures r.id.Some?
    ensures r.id.value in rows <==> IsUpdate(rows, apod)
    ensures r.(id := apod.id) == apod
  {
    if IsUpdate(rows, apod) then apod else apod.(id := Some(nextId))
  }

  /** The rows after `save(apod)`. */
  function AfterSave(rows: map<int, NasaApod>, nextId: int, apod: NasaApod): map<int, NasaApod>
    requires TableInvariant(rows, nextId)
  {
    var s := Stored(rows, nextId, apod);
    rows[s.id.value := s]
  }

  /** The counter after `save(apod)`: an insert consumes one value. */
  function NextIdAfterSave(rows: map<int, NasaApod>, nextId: int, apod: NasaApod): int
  {
    if IsUpdate(rows, apod) then nextId else nextId + 1
  }

  /** `save` is an upsert: only the row of the stored record is written, and every other row is untouched. */
  lemma SaveUpserts(rows: map<int, NasaApod>, nextId: int, apod: NasaApod)
    requires TableInvariant(rows, nextId)
    ensures var s := Stored(rows, nextId, apod);
      && AfterSave(rows, nextId, apod).Keys == rows.Keys + {s.id.value}
      && AfterSave(rows, nextId, apod)[s.id.value] == s
      && (forall k :: k in rows && k != s.id.value ==> AfterSave(rows, nextId, apod)[k] == rows[k])
      && (IsUpdate(rows, apod) ==> |AfterSave(rows, nextId, apod)| == |rows|)
      && (!IsUpdate(rows, apod) ==> |AfterSave(rows, nextId, apod)| == |rows| + 1)
  {
  }

  /** `save` keeps the table invariant. */
  lemma SaveKeepsInvariant(rows: map<int, NasaApod>, nextId: int, apod: NasaApod)
    requires TableInvariant(rows, nextId)
    ensures TableInvariant(AfterSave(rows, nextId, apod), NextIdAfterSave(rows, nextId, apod))
  {
  }

  /** Saving a fetched record and reading back its id yields that record, all fields equal, plus the assigned id. */
  lemma SaveThenFindRoundTrip(rows: map<int, NasaApod>, nextId: int, fetched: NasaApod)
    requires TableInvariant(rows, nextId)
    requires fetched.id.None?
    ensures var s := Stored(rows, nextId, fetched);
      && s.id == Some(nextId)
      && s.id.value !in rows
      && AfterSave(rows, nextId, fetched)[s.id.value].(id := None) == fetched
  {
  }

  /** The set of stored keys in `[lo, hi)`. */
  ghost function KeysIn(rows: map<int, NasaApod>, lo: int, hi: int): set<int>
  {
    set k | k in rows && lo <= k < hi
  }

  /** Records of a sequence have strictly increasing ids. */
  ghost predicate AscendingIds(s: seq<NasaApod>)
  {
    (forall i :: 0 <= i < |s| ==> s[i].id.Some?) &&
    forall i, j :: 0 <= i < j < |s| ==> s[i].id.value < s[j].id.value
  }

  /** The stored records with keys in `[lo, hi)`, in key order. */
  function InKeyOrder(rows: map<int, NasaApod>, lo: int, hi: int): (r: seq<NasaApod>)
    requires KeysAreIds(rows)
    ensures forall i :: 0 <= i < |r| ==>
      r[i].id.Some? && lo <= r[i].id.value < hi && r[i].id.value in rows && rows[r[i].id.value] == r[i]
    ensures AscendingIds(r)
    decreases hi - lo
  {
    if lo >= hi then []
    else
      var rest := InKeyOrder(rows, lo + 1, hi);
      if lo in rows then
        var r := [rows[lo]] + rest;
        assert forall i :: 1 <= i < |r| ==> r[i] == rest[i - 1];
        r
      else rest
  }

  /** Every stored key in `[lo, hi)` contributes its record. */
  lemma {:induction false} InKeyOrderComplete(rows: map<int, NasaApod>, lo: int, hi: int, k: int)
    requires KeysAreIds(rows)
    requires lo <= k < hi && k in rows
    ensures rows[k] in InKeyOrder(rows, lo, hi)
    decreases hi - lo
  {
    if k > lo {
      InKeyOrderComplete(rows, lo + 1, hi, k);
    }
  }

  /** One record per stored key in `[lo, hi)`. */
  lemma {:induction false} InKeyOrderLength(rows: map<int, NasaApod>, lo: int, hi: int)
    requires KeysAreIds(rows)
    ensures |InKeyOrder(rows, lo, hi)| == |KeysIn(rows, lo, hi)|
    decreases hi - lo
  {
    if lo >= hi {
      assert KeysIn(rows, lo, hi) == {};
    } else {
      InKeyOrderLength(rows, lo + 1, hi);
      if lo in rows {
        assert KeysIn(rows, lo, hi) == {lo} + KeysIn(rows, lo + 1, hi);
      } else {
        assert KeysIn(rows, lo, hi) == KeysIn(rows, lo + 1, hi);
      }
    }
  }

  /** The elements of `s` that satisfy `p`, in their original order. */
  function Where(s: seq<NasaApod>, p: NasaApod -> bool): (r: seq<NasaApod>)
    ensures forall a :: a in r <==> a in s && p(a)
    decreases |s|
  {
    if |s| == 0 then []
    else
      var rest := Where(s[1..], p);
      assert forall a :: a in s <==> a == s[0] || a in s[1..];
      if p(s[0]) then [s[0]] + rest else rest
  }

  /** Filtering keeps the relative order, so ascending ids stay ascending. */
  lemma {:induction false} WhereKeepsOrder(s: seq<NasaApod>, p: NasaApod -> bool)
    requires AscendingIds(s)
    ensures AscendingIds(Where(s, p))
    decreases |s|
  {
    if |s| > 0 {
      var rest := Where(s[1..], p);
      assert AscendingIds(s[1..]);
      WhereKeepsOrder(s[1..], p);
      if p(s[0]) {
        forall i | 0 <= i < |rest| ensures s[0].id.value < rest[i].id.value {
          assert rest[i] in s[1..];
          var j :| 0 <= j < |s[1..]| && s[1..][j] == rest[i];
          assert s[j + 1] == rest[i];
        }
        var r := [s[0]] + rest;
        assert forall i :: 1 <= i < |r| ==> r[i] == rest[i - 1];
      }
    }
  }

  /** At most one stored record has the given copyright holder. */
  ghost predicate AtMostOneWithCopyright(rows: map<int, NasaApod>, copyright: string)
  {
    forall j, k :: j in rows && k in rows && rows[j].copyright == Some(copyright) && rows[k].copyright == Some(copyright) ==> j == k
  }

  class NasaRepository {
    var rows: map<int, NasaApod>
    /** The next value of the AUTO_INCREMENT counter. */
    var nextId: int

    ghost predicate Valid()
      reads this
    {
      TableInvariant(rows, nextId)
    }

    constructor ()
      ensures Valid() && rows == map[] && nextId == 1
    {
      rows, nextId := map[], 1;
    }

    /** `findAll`: every stored record exactly once, in primary-key order. */
    function FindAll(): (r: seq<NasaApod>)
      reads this
      requires Valid()
      ensures |r| == |rows|
      ensures forall a :: a in r <==> a in rows.Values
      ensures AscendingIds(r)
    {
      var r := InKeyOrder(rows, 1, nextId);
      assert KeysIn(rows, 1, nextId) == rows.Keys;
      InKeyOrderLength(rows, 1, nextId);
      assert forall a :: a in r ==> a in rows.Values by {
        forall a | a in r ensures a in rows.Values {
          var i :| 0 <= i < |r| && r[i] == a;
          assert rows[r[i].id.value] == a;
        }
      }
      assert forall a :: a in rows.Values ==> a in r by {
        forall a | a in rows.Values ensures a in r {
          var k :| k in rows && rows[k] == a;
          InKeyOrderComplete(rows, 1, nextId, k);
        }
      }
      r
    }

    /** `count`: the number of records `findAll` returns. */
    function Count(): (n: nat)
      reads this
      requires Valid()
      ensures n == |FindAll()|
    {
      |rows|
    }

    /** `findById`: the record stored under `id`, or empty. */
    function FindById(id: int): (r: Option<NasaApod>)
      reads this
      requires Valid()
      ensures r.Some? <==> id in rows
      ensures r.Some? ==> r.value == rows[id] && r.value.id == Some(id)
    {
      if id in rows then Some(rows[id]) else None
    }

    /** `findByDate`: exactly the stored records with that date, in primary-key order. */
    function FindByDate(date: string): (r: seq<NasaApod>)
      reads this
      requires Valid()
      ensures forall a :: a in r <==> a in rows.Values && a.date == date
      ensures AscendingIds(r)
    {
      WhereKeepsOrder(FindAll(), (a: NasaApod) => a.date == date);
      Where(FindAll(), (a: NasaApod) => a.date == date)
    }

    /** `findApodByCopyright`: the one record with that copyright holder, or null when there is none. */
    function FindApodByCopyright(copyright: string): (r: Option<NasaApod>)
      reads this
      requires Valid()
      requires AtMostOneWithCopyright(rows, copyright)
      ensures r.None? <==> forall k :: k in rows ==> rows[k].copyright != Some(copyright)
      ensures r.Some? ==> forall k :: k in rows && rows[k].copyright == Some(copyright) ==> rows[k] == r.value
      ensures r.Some? ==> r.value in rows.Values && r.value.copyright == Some(copyright)
    {
      var matches := Where(FindAll(), (a: NasaApod) => a.copyright == Some(copyright));
      if |matches| == 0 then
        assert forall k :: k in rows ==> rows[k] in rows.Values;
        None
      else
        assert matches[0] in matches;
        Some(matches[0])
    }

    /** `save`: insert or replace by id; returns the stored record with its id. */
    method Save(apod: NasaApod) returns (saved: NasaApod)
      requires Valid()
      modifies this
      ensures Valid()
      ensures saved == Stored(old(rows), old(nextId), apod)
      ensures rows == AfterSave(old(rows), old(nextId), apod)
      ensures nextId == NextIdAfterSave(old(rows), old(nextId), apod)
    {
      SaveKeepsInvariant(rows, nextId, apod);
      if apod.id.Some? && apod.id.value in rows {
        saved := apod;
      } else {
        saved := apod.(id := Some(nextId));
        nextId := nextId + 1;
      }
      rows := rows[saved.id.value := saved];
    }

    /** `deleteById`: removes the row with that key and nothing else (no-op on an absent key). */
    method DeleteById(id: int)
      requires Valid()
      modifies this
      ensures Valid()
      ensures rows == old(rows) - {id} && nextId == old(nextId)
    {
      rows := rows - {id};
    }

    /** `deleteAll`: empties the table; the AUTO_INCREMENT counter is not reset. */
    method DeleteAll()
      requires Valid()
      modifies this
      ensures Valid()
      ensures rows == map[] && nextId == old(nextId)
    {
      rows := map[];
    }
  }
}

/** The invariant the source's asserts rely on and never states, and its preservation. */
module CoreInvariants {
  import opened Bytes
  import opened Ranking
  import opened CoreState

  /** Numeric ids are given out once each. */
  ghost predicate Numbering(s: State) {
    && (forall id | id in s.idMap :: s.idMap[id] < s.nextId)
    && (forall a, b | a in s.idMap && b in s.idMap && s.idMap[a] == s.idMap[b] :: a == b)
  }

  /** Residency marks fit the registrations, and what is not resident holds nothing. */
  ghost predicate Residency(s: State)
    requires WellFormed(s)
  {
    forall c | 0 <= c < s.nCells ::
      && (forall id | id in s.idsByCell[c] :: id in s.idMap)
      && -1 <= s.residence[c] <= |s.idsByCell[c]|
      && (s.residence[c] == -1 ==> s.lists[c] == [])
      && (!s.trained ==> s.lists[c] == [] && s.idsByCell[c] == [])
  }

  /** An entry of list c is a record of data_map, is routed to c, and was registered in c. */
  ghost predicate Stored(s: State, c: nat, e: Entry)
    requires WellFormed(s) && c < s.nCells
  {
    && e.num in s.dataMap
    && s.dataMap[e.num].embedding == e.vec
    && Nearest(s.geo, e.vec) == c
    && var id := CStr(s.dataMap[e.num].id);
    && id in s.idsByCell[c]
    && id in s.idMap
    && s.idMap[id] == e.num
  }

  ghost predicate ListsStored(s: State)
    requires WellFormed(s)
  {
    forall c, e | 0 <= c < s.nCells && e in s.lists[c] :: Stored(s, c, e)
  }

  ghost predicate ListsDistinct(s: State)
    requires WellFormed(s)
  {
    forall c, i, j | 0 <= c < s.nCells && 0 <= i < j < |s.lists[c]| :: s.lists[c][i].num != s.lists[c][j].num
  }

  /** Every key of data_map is in the list of the cell its embedding is routed to. */
  ghost predicate Listed(s: State, n: nat)
    requires WellFormed(s) && n in s.dataMap
  {
    var c := Nearest(s.geo, s.dataMap[n].embedding);
    c < s.nCells && Entry(n, s.dataMap[n].embedding) in s.lists[c]
  }

  ghost predicate Coherent(s: State) {
    && WellFormed(s)
    && Numbering(s)
    && Residency(s)
    && ListsStored(s)
    && ListsDistinct(s)
    && (forall n | n in s.dataMap :: Listed(s, n))
  }

  /** No id was registered twice. */
  ghost predicate Distinct(s: State)
    requires WellFormed(s)
  {
    && (forall c | 0 <= c < s.nCells :: NoRepeats(s.idsByCell[c]))
    && (forall a, b, id | 0 <= a < b < s.nCells && id in s.idsByCell[a] :: id !in s.idsByCell[b])
  }

  // ---------- what the caller and the database owe ----------

  function IdsOf(rows: seq<Record>): (r: seq<Bytes>)
    ensures |r| == |rows|
  {
    seq(|rows|, i requires 0 <= i < |rows| => CStr(rows[i].id))
  }

  /** One record per id asked for, in any order, with any contents. */
  ghost predicate Conforms(ids: seq<Bytes>, rows: seq<Record>) {
    multiset(IdsOf(rows)) == multiset(ids)
  }

  lemma ConformingIds(ids: seq<Bytes>, rows: seq<Record>)
    requires Conforms(ids, rows)
    ensures |rows| == |ids|
    ensures forall r | r in rows :: CStr(r.id) in ids
    ensures forall id | id in ids :: exists r :: r in rows && CStr(r.id) == id
  {
    var asked := IdsOf(rows);
    assert |multiset(asked)| == |multiset(ids)|;
    forall r | r in rows
      ensures CStr(r.id) in ids
    {
      var i :| 0 <= i < |rows| && rows[i] == r;
      assert asked[i] in multiset(asked);
      assert asked[i] in ids;
    }
    forall id | id in ids
      ensures exists r :: r in rows && CStr(r.id) == id
    {
      assert id in multiset(ids);
      assert id in asked;
      var i :| 0 <= i < |rows| && asked[i] == id;
      assert rows[i] in rows;
    }
  }

  lemma ConformingNoRepeats(ids: seq<Bytes>, rows: seq<Record>)
    requires Conforms(ids, rows) && NoRepeats(ids)
    ensures NoRepeats(IdsOf(rows))
  {
    var asked := IdsOf(rows);
    forall i, j | 0 <= i < j < |asked|
      ensures asked[i] != asked[j]
    {
      if asked[i] == asked[j] {
        TwiceInMultiset(asked, i, j);
        OnceInMultiset(ids, asked[i]);
        assert false;
      }
    }
  }

  lemma TwiceInMultiset<T>(s: seq<T>, i: nat, j: nat)
    requires i < j < |s| && s[i] == s[j]
    ensures multiset(s)[s[i]] >= 2
  {
    assert s == s[..j] + [s[j]] + s[j + 1..];
    assert s[i] in s[..j];
    assert s[i] in multiset(s[..j]);
  }

  lemma {:induction false} OnceInMultiset<T>(s: seq<T>, x: T)
    requires NoRepeats(s)
    ensures multiset(s)[x] <= 1
  {
    if s != [] {
      var n := |s| - 1;
      assert s == s[..n] + [s[n]];
      OnceInMultiset(s[..n], x);
      if x == s[n] {
        assert x !in s[..n];
        assert x !in multiset(s[..n]);
      }
    }
  }

  // ---------- numbers of kept rows ----------

  lemma {:induction false} KeptIds(geo: Geometry, c: nat, rows: seq<Record>)
    requires NoRepeats(IdsOf(rows))
    ensures NoRepeats(IdsOf(Kept(geo, c, rows)))
  {
    if rows != [] {
      var n := |rows| - 1;
      var front, last := rows[..n], rows[n];
      LastIdIsNew(rows);
      KeptIds(geo, c, front);
      var kept := Kept(geo, c, front);
      assert forall r | r in kept :: CStr(r.id) != CStr(last.id);
      NewIdLast(kept, last);
      assert Kept(geo, c, rows) == if Nearest(geo, last.embedding) == c then kept + [last] else kept;
    }
  }

  lemma LastIdIsNew(rows: seq<Record>)
    requires rows != [] && NoRepeats(IdsOf(rows))
    ensures NoRepeats(IdsOf(rows[..|rows| - 1]))
    ensures forall r | r in rows[..|rows| - 1] :: CStr(r.id) != CStr(rows[|rows| - 1].id)
  {
    var n := |rows| - 1;
    var ids := IdsOf(rows);
    assert IdsOf(rows[..n]) == ids[..n];
    forall r | r in rows[..n]
      ensures CStr(r.id) != CStr(rows[n].id)
    {
      var j :| 0 <= j < n && rows[j] == r;
      assert ids[j] != ids[n];
    }
  }

  lemma NewIdLast(rows: seq<Record>, last: Record)
    requires NoRepeats(IdsOf(rows)) && forall r | r in rows :: CStr(r.id) != CStr(last.id)
    ensures NoRepeats(IdsOf(rows + [last]))
  {
    assert IdsOf(rows + [last]) == IdsOf(rows) + [CStr(last.id)];
    forall i | 0 <= i < |rows|
      ensures IdsOf(rows)[i] != CStr(last.id)
    {
      assert rows[i] in rows;
    }
  }

  /** Numbers repeat exactly when ids do. */
  lemma NumbersRepeatWithIds(s: State, recs: seq<Record>)
    requires Numbering(s) && Known(s.idMap, recs)
    ensures NoRepeats(Numbers(s.idMap, recs)) <==> NoRepeats(IdsOf(recs))
  {
    var nums, ids := Numbers(s.idMap, recs), IdsOf(recs);
    forall i, j | 0 <= i < j < |recs|
      ensures nums[i] == nums[j] <==> ids[i] == ids[j]
    {
      assert recs[i] in recs && recs[j] in recs;
    }
  }

  /** Where a stored record lives: the cell its embedding is routed to, which is resident,
      lists it, and has its id registered under its number. */
  lemma StoredHome(s: State, n: nat) returns (home: nat)
    requires Coherent(s) && n in s.dataMap
    ensures home < s.nCells && home == Nearest(s.geo, s.dataMap[n].embedding)
    ensures Stored(s, home, Entry(n, s.dataMap[n].embedding))
    ensures Entry(n, s.dataMap[n].embedding) in s.lists[home] && s.residence[home] > -1
  {
    assert Listed(s, n);
    home := Nearest(s.geo, s.dataMap[n].embedding);
  }

  // ---------- load ----------

  /** With ids registered once and a conforming reply, no assert of loadCell can fail. */
  lemma LoadNeverAborts(s: State, c: nat, rows: seq<Record>)
    requires Coherent(s) && Distinct(s) && c < s.nCells && s.residence[c] == -1
    requires Conforms(s.idsByCell[c], rows)
    ensures Loadable(s, c, rows)
  {
    var kept := Kept(s.geo, c, rows);
    ConformingIds(s.idsByCell[c], rows);
    ConformingNoRepeats(s.idsByCell[c], rows);
    KeptIds(s.geo, c, rows);
    assert Known(s.idMap, kept);
    NumbersRepeatWithIds(s, kept);
    forall n | n in Numbers(s.idMap, kept)
      ensures n !in s.dataMap
    {
      var i :| 0 <= i < |kept| && Numbers(s.idMap, kept)[i] == n;
      assert kept[i] in rows;
      if n in s.dataMap {
        var home := StoredHome(s, n);
        DistinctHome(s, c, home, CStr(kept[i].id));
      }
    }
  }

  lemma DistinctHome(s: State, a: nat, b: nat, id: Bytes)
    requires WellFormed(s) && Distinct(s) && a < s.nCells && b < s.nCells
    requires id in s.idsByCell[a] && id in s.idsByCell[b]
    ensures a == b
  {
  }

  predicate NotYetStored(s: State, id: Bytes) {
    id in s.idMap ==> s.idMap[id] !in s.dataMap
  }

  /** The kept records have different ids, none of them stored yet. */
  ghost predicate NewToCache(s: State, kept: seq<Record>) {
    && NoRepeats(IdsOf(kept))
    && forall r | r in kept :: NotYetStored(s, CStr(r.id))
  }

  /** An assert of loadCell fails on a conforming reply exactly when two records kept for the
      cell share an id, or a kept id is already stored. */
  lemma LoadAbortsIff(s: State, c: nat, rows: seq<Record>)
    requires Coherent(s) && c < s.nCells && Conforms(s.idsByCell[c], rows)
    ensures Loadable(s, c, rows) <==> NewToCache(s, Kept(s.geo, c, rows))
  {
    ConformingIds(s.idsByCell[c], rows);
    var kept := Kept(s.geo, c, rows);
    assert Known(s.idMap, kept);
    NumbersRepeatWithIds(s, kept);
    NewNumbersIff(s, kept);
  }

  lemma NewNumbersIff(s: State, kept: seq<Record>)
    requires Known(s.idMap, kept)
    ensures (forall n | n in Numbers(s.idMap, kept) :: n !in s.dataMap)
            <==> forall r | r in kept :: NotYetStored(s, CStr(r.id))
  {
    var nums := Numbers(s.idMap, kept);
    if forall n | n in nums :: n !in s.dataMap {
      forall r | r in kept
        ensures NotYetStored(s, CStr(r.id))
      {
        var i :| 0 <= i < |kept| && kept[i] == r;
        assert nums[i] in nums;
      }
    }
    if forall r | r in kept :: NotYetStored(s, CStr(r.id)) {
      forall n | n in nums
        ensures n !in s.dataMap
      {
        var i :| 0 <= i < |kept| && nums[i] == n;
        assert kept[i] in kept;
      }
    }
  }

  lemma LoadKeepsCoherence(s: State, c: nat, rows: seq<Record>)
    requires Coherent(s) && c < s.nCells && s.residence[c] == -1
    requires Conforms(s.idsByCell[c], rows) && Loadable(s, c, rows)
    ensures Coherent(LoadCell(s, c, rows))
  {
    LoadKeepsStored(s, c, rows);
    LoadKeepsListed(s, c, rows);
    LoadKeepsListsDistinct(s, c, rows);
  }

  lemma LoadKeepsStored(s: State, c: nat, rows: seq<Record>)
    requires Coherent(s) && c < s.nCells && s.residence[c] == -1
    requires Conforms(s.idsByCell[c], rows) && Loadable(s, c, rows)
    ensures ListsStored(LoadCell(s, c, rows))
  {
    var t := LoadCell(s, c, rows);
    var added := Entries(s.idMap, Kept(s.geo, c, rows));
    assert t.lists[c] == added;
    forall x, e | 0 <= x < s.nCells && e in t.lists[x]
      ensures Stored(t, x, e)
    {
      if x == c {
        NewEntryStored(s, c, rows, e);
      } else {
        assert e in s.lists[x];
        OtherListsStored(s, c, rows, x, e);
      }
    }
  }

  lemma NewEntryStored(s: State, c: nat, rows: seq<Record>, e: Entry)
    requires WellFormed(s) && c < s.nCells && Conforms(s.idsByCell[c], rows) && Loadable(s, c, rows)
    requires e in Entries(s.idMap, Kept(s.geo, c, rows))
    ensures Stored(LoadCell(s, c, rows), c, e)
  {
    var kept := Kept(s.geo, c, rows);
    var i :| 0 <= i < |kept| && Entries(s.idMap, kept)[i] == e;
    ConformingIds(s.idsByCell[c], rows);
    assert kept[i] in kept;
    var t := LoadCell(s, c, rows);
    assert t.dataMap[s.idMap[CStr(kept[i].id)]] == kept[i];
  }

  lemma OtherListsStored(s: State, c: nat, rows: seq<Record>, x: nat, e: Entry)
    requires WellFormed(s) && ListsStored(s) && c < s.nCells && Loadable(s, c, rows)
    requires x < s.nCells && e in s.lists[x]
    ensures Stored(LoadCell(s, c, rows), x, e)
  {
    assert Stored(s, x, e);
    assert e.num !in Keyed(s.idMap, Kept(s.geo, c, rows));
  }

  lemma LoadKeepsListsDistinct(s: State, c: nat, rows: seq<Record>)
    requires Coherent(s) && c < s.nCells && s.residence[c] == -1 && Loadable(s, c, rows)
    ensures ListsDistinct(LoadCell(s, c, rows))
  {
    var kept := Kept(s.geo, c, rows);
    EntriesDistinct(s.idMap, kept);
    assert s.lists[c] + Entries(s.idMap, kept) == Entries(s.idMap, kept);
    assert LoadCell(s, c, rows).lists == s.lists[c := Entries(s.idMap, kept)];
  }

  lemma EntriesDistinct(idMap: map<Bytes, nat>, recs: seq<Record>)
    requires Known(idMap, recs) && NoRepeats(Numbers(idMap, recs))
    ensures var es := Entries(idMap, recs); forall i, j | 0 <= i < j < |es| :: es[i].num != es[j].num
  {
    var nums, es := Numbers(idMap, recs), Entries(idMap, recs);
    forall i, j | 0 <= i < j < |es|
      ensures es[i].num != es[j].num
    {
      assert nums[i] != nums[j];
    }
  }

  lemma LoadKeepsListed(s: State, c: nat, rows: seq<Record>)
    requires Coherent(s) && c < s.nCells && s.residence[c] == -1 && Loadable(s, c, rows)
    ensures var t := LoadCell(s, c, rows); forall n | n in t.dataMap :: Listed(t, n)
  {
    var t := LoadCell(s, c, rows);
    var kept := Kept(s.geo, c, rows);
    var nums := Numbers(s.idMap, kept);
    assert t.lists[c] == Entries(s.idMap, kept);
    forall n | n in t.dataMap
      ensures Listed(t, n)
    {
      if n in nums {
        var i :| 0 <= i < |kept| && nums[i] == n;
        assert kept[i] in kept;
        assert t.lists[c][i] in t.lists[c];
      } else {
        var home := StoredHome(s, n);
        assert home != c;
      }
    }
  }

  // ---------- evict ----------

  lemma EvictKeepsCoherence(s: State, c: nat)
    requires Coherent(s) && c < s.nCells
    ensures Coherent(EvictCell(s, c))
  {
    var t := EvictCell(s, c);
    forall x, e | 0 <= x < s.nCells && e in t.lists[x]
      ensures Stored(t, x, e)
    {
      assert x != c && Stored(s, x, e);
      NotInTwoLists(s, x, e, c);
    }
    forall n | n in t.dataMap
      ensures Listed(t, n)
    {
      assert Listed(s, n);
    }
  }

  /** The inverted lists are disjoint. */
  lemma NotInTwoLists(s: State, x: nat, e: Entry, c: nat)
    requires WellFormed(s) && ListsStored(s) && x < s.nCells && c < s.nCells && x != c && e in s.lists[x]
    ensures e.num !in StoredNums(s.lists[c])
  {
    assert Stored(s, x, e);
    forall f | f in s.lists[c]
      ensures f.num != e.num
    {
      assert Stored(s, c, f);
    }
  }

  // ---------- add ----------

  lemma AddOneKeepsCoherence(s: State, id: Bytes, v: Vec)
    requires Coherent(s) && s.trained && Nearest(s.geo, v) < s.nCells
    ensures Coherent(AddOne(s, id, v))
  {
    var t := AddOne(s, id, v);
    assert Numbering(t);
    assert forall x, i | 0 <= x < s.nCells && i in s.idsByCell[x] :: i in t.idsByCell[x];
    assert forall i | i in s.idMap :: i in t.idMap && t.idMap[i] == s.idMap[i];
    assert CStr(id) in t.idMap;
    assert Residency(t);
    forall x, e | 0 <= x < s.nCells && e in t.lists[x]
      ensures Stored(t, x, e)
    {
      assert Stored(s, x, e);
    }
    forall n | n in t.dataMap
      ensures Listed(t, n)
    {
      assert Listed(s, n);
    }
  }

  lemma AddOneKeepsDistinct(s: State, id: Bytes, v: Vec)
    requires WellFormed(s) && Residency(s) && Distinct(s) && CStr(id) !in s.idMap && Nearest(s.geo, v) < s.nCells
    ensures Distinct(AddOne(s, id, v))
  {
    assert forall x | 0 <= x < s.nCells :: CStr(id) !in s.idsByCell[x];
  }

  lemma {:induction false} AddKeepsCoherence(s: State, ids: seq<Bytes>, vs: seq<Vec>)
    requires Coherent(s) && s.trained && s.nCells > 0 && |ids| == |vs|
    ensures Coherent(AddRows(s, ids, vs))
    decreases |ids|
  {
    if ids != [] {
      NearestInRange(s.geo, vs[0]);
      AddOneKeepsCoherence(s, ids[0], vs[0]);
      AddKeepsCoherence(AddOne(s, ids[0], vs[0]), ids[1..], vs[1..]);
    }
  }

  /** t keeps every mapping of s, used up n numbers, and knows exactly the ids of s and these. */
  ghost predicate Extends(s: State, t: State, n: nat, ids: set<Bytes>) {
    && (forall id | id in s.idMap :: id in t.idMap && t.idMap[id] == s.idMap[id])
    && t.nextId == s.nextId + n
    && t.idMap.Keys == s.idMap.Keys + ids
  }

  /** The ids as C strings. */
  function IdSet(ids: seq<Bytes>): (r: set<Bytes>) {
    if ids == [] then {} else {CStr(ids[0])} + IdSet(ids[1..])
  }

  /** Existing mappings survive every registration, even of an id that is registered again;
      every registration uses up one number; exactly the given ids become known. */
  lemma {:induction false} AddKeepsNumbers(s: State, ids: seq<Bytes>, vs: seq<Vec>)
    requires WellFormed(s) && s.trained && s.nCells > 0 && |ids| == |vs|
    ensures Extends(s, AddRows(s, ids, vs), |ids|, IdSet(ids))
    decreases |ids|
  {
    if ids != [] {
      AddOneNumbers(s, ids[0], vs[0]);
      var u := AddOne(s, ids[0], vs[0]);
      AddKeepsNumbers(u, ids[1..], vs[1..]);
      ExtendsTwice(s, u, AddRows(s, ids, vs), CStr(ids[0]), |ids| - 1, IdSet(ids[1..]));
    }
  }

  lemma ExtendsTwice(s: State, u: State, t: State, id: Bytes, n: nat, ids: set<Bytes>)
    requires Extends(s, u, 1, {id}) && Extends(u, t, n, ids)
    ensures Extends(s, t, n + 1, {id} + ids)
  {
  }

  lemma AddOneNumbers(s: State, id: Bytes, v: Vec)
    requires WellFormed(s) && s.trained && s.nCells > 0
    ensures Nearest(s.geo, v) < s.nCells
    ensures Extends(s, AddOne(s, id, v), 1, {CStr(id)})
  {
    NearestInRange(s.geo, v);
  }

  /** The ids of one ADD are new and pairwise different as C strings. */
  ghost predicate NewIds(s: State, ids: seq<Bytes>) {
    && (forall i | 0 <= i < |ids| :: CStr(ids[i]) !in s.idMap)
    && (forall i, j | 0 <= i < j < |ids| :: CStr(ids[i]) != CStr(ids[j]))
  }

  lemma {:induction false} AddKeepsDistinct(s: State, ids: seq<Bytes>, vs: seq<Vec>)
    requires Coherent(s) && Distinct(s) && NewIds(s, ids)
    requires s.trained && s.nCells > 0 && |ids| == |vs|
    ensures Distinct(AddRows(s, ids, vs))
    decreases |ids|
  {
    if ids != [] {
      NearestInRange(s.geo, vs[0]);
      var u := AddOne(s, ids[0], vs[0]);
      AddOneKeepsCoherence(s, ids[0], vs[0]);
      AddOneKeepsDistinct(s, ids[0], vs[0]);
      forall i | 0 <= i < |ids[1..]|
        ensures CStr(ids[1..][i]) !in u.idMap
      {
        assert ids[1..][i] == ids[i + 1];
      }
      AddKeepsDistinct(u, ids[1..], vs[1..]);
    }
  }

  // ---------- construction and training ----------

  lemma BlankIsCoherent(d: nat, nCells: nat, coarse: (Vec, Vec) -> int, fine: (Vec, Vec) -> int)
    ensures var s := Blank(d, nCells, coarse, fine);
            && Coherent(s) && Distinct(s)
            && s.d == d && s.nCells == nCells && s.geo == Geometry([], coarse, fine) && !s.trained
            && s.idMap == map[] && s.dataMap == map[] && s.nextId == 0
            && forall c | 0 <= c < nCells :: s.idsByCell[c] == [] && s.lists[c] == [] && s.residence[c] == -1
  {
  }

  /** The first training routes an empty core; a later one changes nothing at all. */
  lemma TrainIsSticky(s: State, learned: seq<Vec>)
    requires Coherent(s) && |learned| == s.nCells
    ensures var t := Train(s, learned);
            && Coherent(t) && t.trained
            && (s.trained ==> t == s)
            && (!s.trained ==> t.geo == Geometry(learned, s.geo.coarse, s.geo.fine) && t.dataMap == map[])
            && t.d == s.d && t.nCells == s.nCells && t.idMap == s.idMap && t.nextId == s.nextId
            && t.idsByCell == s.idsByCell && t.lists == s.lists && t.residence == s.residence
            && (Distinct(s) ==> Distinct(t))
            && forall again: seq<Vec> | |again| == s.nCells :: Train(t, again) == t
  {
    var t := Train(s, learned);
    forall n | n in s.dataMap
      ensures s.trained
    {
      assert Listed(s, n);
    }
    assert !s.trained ==> s.dataMap == map[];
  }
}

/** Loading and evicting several cells: what survives, what a failure leaves behind,
    what undoes what and what commutes. */
module CoreLoads {
  import opened Bytes
  import opened Ranking
  import opened CoreState
  import opened CoreInvariants

  /** Every reply has one record per id registered in the cell it answers for. */
  ghost predicate DbConforms(s: State, db: nat -> DbReply)
    requires WellFormed(s)
  {
    forall c: nat | c < s.nCells && db(c).Rows? :: Conforms(s.idsByCell[c], db(c).rows)
  }

  /** t registers, routes and numbers exactly as s does. */
  ghost predicate SameRegistry(s: State, t: State) {
    && t.d == s.d && t.nCells == s.nCells && t.geo == s.geo && t.trained == s.trained
    && t.idsByCell == s.idsByCell && t.idMap == s.idMap && t.nextId == s.nextId
  }

  /** Cell c is the same in both states. */
  ghost predicate SameCell(s: State, t: State, c: nat)
    requires WellFormed(s) && WellFormed(t) && t.nCells == s.nCells && c < s.nCells
  {
    t.residence[c] == s.residence[c] && t.lists[c] == s.lists[c]
  }

  ghost predicate Resident(s: State, c: nat)
    requires WellFormed(s) && c < s.nCells
  {
    s.residence[c] > -1
  }

  /** Loading one absent cell changes that cell, and nothing registered or held elsewhere. */
  lemma LoadStep(s: State, c: nat, rows: seq<Record>)
    requires Coherent(s) && c < s.nCells && !Resident(s, c)
    requires Conforms(s.idsByCell[c], rows) && Loadable(s, c, rows)
    ensures var t := LoadCell(s, c, rows);
            && Coherent(t) && SameRegistry(s, t) && Resident(t, c)
            && (forall x: nat | x < s.nCells && x != c :: SameCell(s, t, x))
            && (Distinct(s) ==> Distinct(t))
  {
    LoadKeepsCoherence(s, c, rows);
  }

  /** What loading one cell stores, whatever the reply says: every record of it whose embedding is
      nearest to the cell, under its id's number, in the cell's list, and nothing else. */
  lemma LoadStores(s: State, c: nat, rows: seq<Record>)
    requires WellFormed(s) && c < s.nCells && Loadable(s, c, rows)
    ensures var t := LoadCell(s, c, rows);
            && SameRegistry(s, t) && t.residence == s.residence[c := |s.idsByCell[c]|]
            && (forall r | r in rows && Nearest(s.geo, r.embedding) == c :: StoredNow(s, t, c, r))
            && (forall n | n in t.dataMap && n !in s.dataMap ::
                  && t.dataMap[n] in rows && Nearest(s.geo, t.dataMap[n].embedding) == c
                  && StoredNow(s, t, c, t.dataMap[n]) && s.idMap[CStr(t.dataMap[n].id)] == n)
            && (forall n | n in s.dataMap :: n in t.dataMap && t.dataMap[n] == s.dataMap[n])
            && s.lists[c] <= t.lists[c]
            && (forall x | 0 <= x < s.nCells && x != c :: t.lists[x] == s.lists[x])
            && (forall e | e in t.lists[c][|s.lists[c]|..] ::
                  e.num in t.dataMap && e.num !in s.dataMap && t.dataMap[e.num].embedding == e.vec)
  {
    var t := LoadCell(s, c, rows);
    var kept := Kept(s.geo, c, rows);
    AddedNums(s, c, rows);
    forall r | r in rows && Nearest(s.geo, r.embedding) == c
      ensures StoredNow(s, t, c, r)
    {
      KeptIsStored(s, t, c, kept, r);
    }
    forall n | n in t.dataMap && n !in s.dataMap
      ensures t.dataMap[n] in kept && s.idMap[CStr(t.dataMap[n].id)] == n
    {
      StoredWasKept(s.idMap, kept, n);
    }
    forall e | e in t.lists[c][|s.lists[c]|..]
      ensures e.num in t.dataMap && e.num !in s.dataMap && t.dataMap[e.num].embedding == e.vec
    {
      assert t.lists[c][|s.lists[c]|..] == Entries(s.idMap, kept);
      ListedWasKept(s.idMap, kept, e);
    }
  }

  lemma KeptIsStored(s: State, t: State, c: nat, kept: seq<Record>, r: Record)
    requires c < |s.lists| && c < |t.lists| && Known(s.idMap, kept) && NoRepeats(Numbers(s.idMap, kept)) && r in kept
    requires Keyed(s.idMap, kept).Keys !! s.dataMap.Keys
    requires t.dataMap == s.dataMap + Keyed(s.idMap, kept) && t.lists[c] == s.lists[c] + Entries(s.idMap, kept)
    ensures StoredNow(s, t, c, r)
  {
    var i :| 0 <= i < |kept| && kept[i] == r;
    assert Entries(s.idMap, kept)[i] in Entries(s.idMap, kept);
  }

  lemma StoredWasKept(idMap: map<Bytes, nat>, kept: seq<Record>, n: nat)
    requires Known(idMap, kept) && NoRepeats(Numbers(idMap, kept)) && n in Keyed(idMap, kept)
    ensures Keyed(idMap, kept)[n] in kept && idMap[CStr(Keyed(idMap, kept)[n].id)] == n
  {
    var i :| 0 <= i < |kept| && Numbers(idMap, kept)[i] == n;
    assert kept[i] in kept;
  }

  lemma ListedWasKept(idMap: map<Bytes, nat>, kept: seq<Record>, e: Entry)
    requires Known(idMap, kept) && NoRepeats(Numbers(idMap, kept)) && e in Entries(idMap, kept)
    ensures e.num in Keyed(idMap, kept) && Keyed(idMap, kept)[e.num].embedding == e.vec
  {
    var i :| 0 <= i < |kept| && Entries(idMap, kept)[i] == e;
    assert Numbers(idMap, kept)[i] == e.num;
  }

  /** In t, record r is stored under its id's number and listed in cell c; in s it was not. */
  ghost predicate StoredNow(s: State, t: State, c: nat, r: Record)
    requires c < |t.lists|
  {
    && CStr(r.id) in s.idMap
    && var n := s.idMap[CStr(r.id)];
    n !in s.dataMap && n in t.dataMap && t.dataMap[n] == r && Entry(n, r.embedding) in t.lists[c]
  }

  /** Residents and cells not asked for are the same in both states. */
  ghost predicate Untouched(s: State, t: State, cells: seq<nat>)
    requires WellFormed(s) && WellFormed(t) && t.nCells == s.nCells
  {
    forall c: nat | c < s.nCells && (Resident(s, c) || c !in cells) :: SameCell(s, t, c)
  }

  lemma UntouchedThrough(s: State, u: State, t: State, cells: seq<nat>)
    requires WellFormed(s) && WellFormed(u) && WellFormed(t) && s.nCells == u.nCells == t.nCells && cells != []
    requires forall x: nat | x < s.nCells && (Resident(s, x) || x != cells[0]) :: SameCell(s, u, x)
    requires Untouched(u, t, cells[1..])
    ensures Untouched(s, t, cells)
  {
    assert cells == [cells[0]] + cells[1..];
    forall c: nat | c < s.nCells && (Resident(s, c) || c !in cells)
      ensures SameCell(s, t, c)
    {
      assert SameCell(s, u, c);
      assert SameCell(u, t, c);
    }
  }

  /** Coherence survives a multi-cell load however it ends; residents and cells not asked for
      are untouched; a load that ends well leaves every listed cell resident; and with ids
      registered once no assert fails. */
  lemma {:induction false} LoadCellsKeeps(s: State, cells: seq<nat>, db: nat -> DbReply)
    requires Coherent(s) && CellsOf(s, cells) && DbConforms(s, db)
    ensures var r := LoadCells(s, cells, db);
            && Coherent(r.state) && SameRegistry(s, r.state)
            && Untouched(s, r.state, cells)
            && (r.ending == Done ==> forall i | 0 <= i < |cells| :: Resident(r.state, cells[i]))
            && (Distinct(s) ==> Distinct(r.state) && r.ending != Aborted)
    decreases |cells|, 1
  {
    if cells != [] {
      var c := cells[0];
      if s.residence[c] > -1 {
        LoadOneThenRest(s, s, cells, db);
      } else if db(c).Rows? {
        if Loadable(s, c, db(c).rows) {
          LoadStep(s, c, db(c).rows);
          LoadOneThenRest(s, LoadCell(s, c, db(c).rows), cells, db);
        } else if Distinct(s) {
          LoadNeverAborts(s, c, db(c).rows);
        }
      }
    }
  }

  lemma {:induction false} LoadOneThenRest(s: State, u: State, cells: seq<nat>, db: nat -> DbReply)
    requires Coherent(s) && CellsOf(s, cells) && DbConforms(s, db) && cells != []
    requires Coherent(u) && SameRegistry(s, u) && Resident(u, cells[0]) && (Distinct(s) ==> Distinct(u))
    requires forall x: nat | x < s.nCells && (Resident(s, x) || x != cells[0]) :: SameCell(s, u, x)
    ensures CellsOf(u, cells[1..])
    ensures var r := LoadCells(u, cells[1..], db);
            && Coherent(r.state) && SameRegistry(s, r.state)
            && Untouched(s, r.state, cells)
            && (r.ending == Done ==> forall i | 0 <= i < |cells| :: Resident(r.state, cells[i]))
            && (Distinct(s) ==> Distinct(r.state) && r.ending != Aborted)
    decreases |cells|, 0
  {
    LoadCellsKeeps(u, cells[1..], db);
    var r := LoadCells(u, cells[1..], db);
    UntouchedThrough(s, u, r.state, cells);
    assert SameCell(u, r.state, cells[0]);
    if r.ending == Done {
      forall i | 0 <= i < |cells|
        ensures Resident(r.state, cells[i])
      {
        if i > 0 {
          assert Resident(r.state, cells[1..][i - 1]);
        }
      }
    }
  }

  /** However a load ends, it neither drops nor replaces a stored record. */
  lemma {:induction false} LoadCellsKeepsRecords(s: State, cells: seq<nat>, db: nat -> DbReply)
    requires WellFormed(s) && CellsOf(s, cells)
    ensures var t := LoadCells(s, cells, db).state;
            forall n | n in s.dataMap :: n in t.dataMap && t.dataMap[n] == s.dataMap[n]
    decreases |cells|
  {
    if cells != [] {
      var c := cells[0];
      if s.residence[c] > -1 {
        LoadCellsKeepsRecords(s, cells[1..], db);
      } else if db(c).Rows? && Loadable(s, c, db(c).rows) {
        assert Keyed(s.idMap, Kept(s.geo, c, db(c).rows)).Keys !! s.dataMap.Keys by {
          AddedNums(s, c, db(c).rows);
        }
        LoadCellsKeepsRecords(LoadCell(s, c, db(c).rows), cells[1..], db);
      }
    }
  }

  /** When the database refuses: some listed cell j was absent and refused; the cells before it
      are resident exactly as if only they had been asked for; j, later cells and everything
      else not resident before are as they were. */
  lemma PartialLoad(s: State, cells: seq<nat>, db: nat -> DbReply) returns (j: nat)
    requires Coherent(s) && CellsOf(s, cells) && DbConforms(s, db) && NoRepeats(cells)
    requires LoadCells(s, cells, db).ending == DbFailed
    ensures j < |cells| && !Resident(s, cells[j]) && db(cells[j]) == Refused
    ensures LoadCells(s, cells[..j], db) == Outcome(LoadCells(s, cells, db).state, Done)
    ensures var t := LoadCells(s, cells, db).state;
            && Coherent(t)
            && (forall c: nat | c < s.nCells :: Resident(t, c) <==> Resident(s, c) || c in cells[..j])
            && (forall i | j <= i < |cells| :: SameCell(s, t, cells[i]))
  {
    j := RefusedAt(s, cells, db);
    var t := LoadCells(s, cells, db).state;
    LoadCellsKeeps(s, cells[..j], db);
    forall c: nat | c < s.nCells
      ensures Resident(t, c) <==> Resident(s, c) || c in cells[..j]
    {
      if c in cells[..j] {
        var i :| 0 <= i < j && cells[..j][i] == c;
        assert Resident(t, cells[..j][i]);
      } else {
        assert SameCell(s, t, c);
      }
    }
    forall i | j <= i < |cells|
      ensures SameCell(s, t, cells[i])
    {
      assert cells[i] !in cells[..j];
    }
  }

  /** The state after the first cell of a load, if that neither fails nor aborts. */
  ghost function AfterFirst(s: State, c: nat, db: nat -> DbReply): (u: State)
    requires WellFormed(s) && c < s.nCells && (Resident(s, c) || (db(c).Rows? && Loadable(s, c, db(c).rows)))
    ensures WellFormed(u) && u.nCells == s.nCells
  {
    if Resident(s, c) then s else LoadCell(s, c, db(c).rows)
  }

  lemma LoadFirst(s: State, cells: seq<nat>, db: nat -> DbReply)
    requires WellFormed(s) && CellsOf(s, cells) && cells != []
    requires Resident(s, cells[0]) || (db(cells[0]).Rows? && Loadable(s, cells[0], db(cells[0]).rows))
    ensures CellsOf(AfterFirst(s, cells[0], db), cells[1..])
    ensures LoadCells(s, cells, db) == LoadCells(AfterFirst(s, cells[0], db), cells[1..], db)
  {
  }

  /** The first refused cell: the load goes exactly as far as the cells before it. */
  lemma {:induction false} RefusedAt(s: State, cells: seq<nat>, db: nat -> DbReply) returns (j: nat)
    requires Coherent(s) && CellsOf(s, cells) && DbConforms(s, db) && NoRepeats(cells)
    requires LoadCells(s, cells, db).ending == DbFailed
    ensures j < |cells| && !Resident(s, cells[j]) && db(cells[j]) == Refused
    ensures LoadCells(s, cells[..j], db) == Outcome(LoadCells(s, cells, db).state, Done)
    decreases |cells|
  {
    var c := cells[0];
    if !Resident(s, c) && db(c) == Refused {
      j := 0;
    } else {
      var u := AfterFirst(s, c, db);
      if !Resident(s, c) {
        LoadStep(s, c, db(c).rows);
      }
      LoadFirst(s, cells, db);
      var i := RefusedAt(u, cells[1..], db);
      j := i + 1;
      RefusedLater(s, u, cells, db, i);
    }
  }

  lemma RefusedLater(s: State, u: State, cells: seq<nat>, db: nat -> DbReply, i: nat)
    requires WellFormed(s) && CellsOf(s, cells) && NoRepeats(cells) && i + 1 < |cells|
    requires Resident(s, cells[0]) || (db(cells[0]).Rows? && Loadable(s, cells[0], db(cells[0]).rows))
    requires u == AfterFirst(s, cells[0], db) && !Resident(u, cells[1..][i])
    ensures !Resident(s, cells[i + 1])
    ensures CellsOf(u, cells[1..][..i]) && LoadCells(s, cells[..i + 1], db) == LoadCells(u, cells[1..][..i], db)
  {
    assert cells[i + 1] == cells[1..][i] && cells[i + 1] != cells[0];
    assert cells[..i + 1][1..] == cells[1..][..i] && cells[..i + 1][0] == cells[0];
    LoadFirst(s, cells[..i + 1], db);
  }

  /** Retrying a refused load against a database that has recovered and otherwise answers the
      same reaches the state one uninterrupted load would have reached. */
  lemma {:induction false} RetryCompletes(s: State, cells: seq<nat>, db: nat -> DbReply, recovered: nat -> DbReply)
    requires Coherent(s) && CellsOf(s, cells) && DbConforms(s, db)
    requires forall c: nat | db(c).Rows? :: recovered(c) == db(c)
    requires LoadCells(s, cells, db).ending == DbFailed
    ensures CellsOf(LoadCells(s, cells, db).state, cells)
    ensures LoadCells(LoadCells(s, cells, db).state, cells, recovered) == LoadCells(s, cells, recovered)
    decreases |cells|
  {
    var c := cells[0];
    if s.residence[c] > -1 {
      RetryCompletes(s, cells[1..], db, recovered);
      LoadCellsKeeps(s, cells[1..], db);
      assert SameCell(s, LoadCells(s, cells[1..], db).state, c);
    } else if db(c).Rows? {
      var t := LoadCell(s, c, db(c).rows);
      LoadKeepsCoherence(s, c, db(c).rows);
      RetryCompletes(t, cells[1..], db, recovered);
      LoadCellsKeeps(t, cells[1..], db);
      assert Resident(t, c);
      assert SameCell(t, LoadCells(t, cells[1..], db).state, c);
    }
  }

  /** Evicting several cells keeps coherence, empties exactly those and leaves the rest alone. */
  lemma {:induction false} EvictCellsKeeps(s: State, cells: seq<nat>)
    requires Coherent(s) && CellsOf(s, cells)
    ensures var t := EvictCells(s, cells);
            && Coherent(t) && SameRegistry(s, t)
            && (forall c: nat | c < s.nCells && c !in cells :: SameCell(s, t, c))
            && (forall c: nat | c < s.nCells && c in cells :: !Resident(t, c) && t.lists[c] == [])
            && (Distinct(s) ==> Distinct(t))
    decreases |cells|
  {
    if cells != [] {
      var c := cells[0];
      assert cells == [c] + cells[1..];
      var u := s;
      if s.residence[c] >= 0 {
        EvictKeepsCoherence(s, c);
        u := EvictCell(s, c);
      }
      EvictCellsKeeps(u, cells[1..]);
      assert !Resident(u, c);
    }
  }

  // ---------- undoing and reordering ----------

  /** Evicting a cell that was just loaded restores the state exactly. */
  lemma EvictUndoesLoad(s: State, c: nat, rows: seq<Record>)
    requires Coherent(s) && c < s.nCells && !Resident(s, c) && Loadable(s, c, rows)
    ensures EvictCell(LoadCell(s, c, rows), c) == s
  {
    var t := LoadCell(s, c, rows);
    var kept := Kept(s.geo, c, rows);
    AddedNums(s, c, rows);
    assert t.lists[c] == Entries(s.idMap, kept);
    assert EvictCell(t, c).dataMap == s.dataMap;
    assert EvictCell(t, c).lists == s.lists;
    assert EvictCell(t, c).residence == s.residence;
  }

  lemma AddedNums(s: State, c: nat, rows: seq<Record>)
    requires WellFormed(s) && c < s.nCells && Loadable(s, c, rows)
    ensures var kept := Kept(s.geo, c, rows);
            && StoredNums(Entries(s.idMap, kept)) == Keyed(s.idMap, kept).Keys
            && Keyed(s.idMap, kept).Keys !! s.dataMap.Keys
  {
    var kept := Kept(s.geo, c, rows);
    var added := Entries(s.idMap, kept);
    var nums := Numbers(s.idMap, kept);
    forall n
      ensures n in StoredNums(added) <==> n in Keyed(s.idMap, kept)
    {
      if n in StoredNums(added) {
        var i :| 0 <= i < |added| && added[i].num == n;
        assert nums[i] == n;
      }
      if n in Keyed(s.idMap, kept) {
        var i :| 0 <= i < |nums| && nums[i] == n;
        assert added[i] in added;
      }
    }
  }

  /** Two loads of different cells can be swapped: if one order completes, so does the other,
      and both end in the same state. */
  lemma LoadsCommute(s: State, a: nat, b: nat, ra: seq<Record>, rb: seq<Record>)
    requires WellFormed(s) && a < s.nCells && b < s.nCells && a != b
    requires Loadable(s, a, ra) && Loadable(LoadCell(s, a, ra), b, rb)
    ensures Loadable(s, b, rb) && Loadable(LoadCell(s, b, rb), a, ra)
    ensures LoadCell(LoadCell(s, a, ra), b, rb) == LoadCell(LoadCell(s, b, rb), a, ra)
  {
    SwappedLoads(s, a, b, ra, rb);
    var x, y := LoadCell(LoadCell(s, a, ra), b, rb), LoadCell(LoadCell(s, b, rb), a, ra);
    var ma, mb := Keyed(s.idMap, Kept(s.geo, a, ra)), Keyed(s.idMap, Kept(s.geo, b, rb));
    assert ma.Keys !! mb.Keys by {
      AddedNums(LoadCell(s, a, ra), b, rb);
    }
    MergesCommute(s.dataMap, ma, mb);
    assert x.dataMap == y.dataMap;
    assert x.lists == y.lists;
    assert x.residence == y.residence;
  }

  lemma MergesCommute(m: map<nat, Record>, a: map<nat, Record>, b: map<nat, Record>)
    requires a.Keys !! b.Keys
    ensures (m + a) + b == (m + b) + a
  {
  }

  lemma SwappedLoads(s: State, a: nat, b: nat, ra: seq<Record>, rb: seq<Record>)
    requires WellFormed(s) && a < s.nCells && b < s.nCells && a != b
    requires Loadable(s, a, ra) && Loadable(LoadCell(s, a, ra), b, rb)
    ensures Loadable(s, b, rb) && Loadable(LoadCell(s, b, rb), a, ra)
  {
    var ka, kb := Kept(s.geo, a, ra), Kept(s.geo, b, rb);
    var na, nb := Numbers(s.idMap, ka), Numbers(s.idMap, kb);
    var sa := LoadCell(s, a, ra);
    assert forall n | n in nb :: n !in sa.dataMap;
    assert forall n | n in na :: n in Keyed(s.idMap, ka);
    assert Loadable(s, b, rb);
    assert forall n | n in na :: n !in nb;
  }

  /** A load and an eviction of different cells can be swapped. */
  lemma LoadEvictCommute(s: State, a: nat, b: nat, ra: seq<Record>)
    requires Coherent(s) && a < s.nCells && b < s.nCells && a != b && Loadable(s, a, ra)
    ensures Loadable(EvictCell(s, b), a, ra)
    ensures EvictCell(LoadCell(s, a, ra), b) == LoadCell(EvictCell(s, b), a, ra)
  {
    var x, y := EvictCell(LoadCell(s, a, ra), b), LoadCell(EvictCell(s, b), a, ra);
    var added := Keyed(s.idMap, Kept(s.geo, a, ra));
    var gone := StoredNums(s.lists[b]);
    assert gone <= s.dataMap.Keys by {
      assert forall e | e in s.lists[b] :: Stored(s, b, e);
    }
    assert added.Keys !! gone by {
      AddedNums(s, a, ra);
    }
    MergeThenCut(s.dataMap, added, gone);
    assert x.dataMap == y.dataMap;
    assert x.lists == y.lists;
    assert x.residence == y.residence;
  }

  lemma MergeThenCut(m: map<nat, Record>, a: map<nat, Record>, gone: set<nat>)
    requires a.Keys !! gone
    ensures (m + a) - gone == (m - gone) + a
  {
  }

  /** Two evictions can be swapped. */
  lemma EvictsCommute(s: State, a: nat, b: nat)
    requires WellFormed(s) && a < s.nCells && b < s.nCells
    ensures EvictCell(EvictCell(s, a), b) == EvictCell(EvictCell(s, b), a)
  {
    var x, y := EvictCell(EvictCell(s, a), b), EvictCell(EvictCell(s, b), a);
    if a != b {
      assert x.dataMap == y.dataMap;
      assert x.lists == y.lists;
      assert x.residence == y.residence;
    }
  }

  // ---------- an id registered twice ----------

  /** A cell in which an id is registered twice cannot be loaded: against a reply whose records
      of that id are still routed there, an assert of loadCell fails. */
  lemma RepeatedIdBreaksLoad(s: State, c: nat, i: nat, j: nat, rows: seq<Record>)
    requires Coherent(s) && c < s.nCells && i < j < |s.idsByCell[c]| && s.idsByCell[c][i] == s.idsByCell[c][j]
    requires Conforms(s.idsByCell[c], rows)
    requires forall r | r in rows && CStr(r.id) == s.idsByCell[c][i] :: Nearest(s.geo, r.embedding) == c
    ensures !Loadable(s, c, rows)
  {
    var key := s.idsByCell[c][i];
    TwiceInMultiset(s.idsByCell[c], i, j);
    KeptKeepsAll(s.geo, c, rows, key);
    LoadAbortsIff(s, c, rows);
    if NoRepeats(IdsOf(Kept(s.geo, c, rows))) {
      OnceInMultiset(IdsOf(Kept(s.geo, c, rows)), key);
    }
  }

  lemma {:induction false} KeptKeepsAll(geo: Geometry, c: nat, rows: seq<Record>, key: Bytes)
    requires forall r | r in rows && CStr(r.id) == key :: Nearest(geo, r.embedding) == c
    ensures multiset(IdsOf(Kept(geo, c, rows)))[key] == multiset(IdsOf(rows))[key]
  {
    if rows != [] {
      var n := |rows| - 1;
      var front, last := rows[..n], rows[n];
      var kept := Kept(geo, c, front);
      assert rows == front + [last];
      KeptKeepsAll(geo, c, front, key);
      OneMoreId(front, last, key);
      OneMoreId(kept, last, key);
      assert last in rows;
      assert Kept(geo, c, rows) == if Nearest(geo, last.embedding) == c then kept + [last] else kept;
    }
  }

  lemma OneMoreId(rows: seq<Record>, last: Record, key: Bytes)
    ensures multiset(IdsOf(rows + [last]))[key] == multiset(IdsOf(rows))[key] + if CStr(last.id) == key then 1 else 0
  {
    assert IdsOf(rows + [last]) == IdsOf(rows) + [CStr(last.id)];
  }

  // ---------- which cells a vector's LOAD and EVICT reach ----------

  /** How many centroids are nearer to v than that of cell c. */
  ghost function Rivals(s: State, v: Vec, c: nat): nat
    requires WellFormed(s) && s.trained && c < s.nCells
  {
    |CloserCells(s.geo, v, c)|
  }

  /** LOAD reaches the cells with fewer than nload centroids nearer to xq, in the order of that
      number: if the database answers, exactly those become resident; if it refuses, the cell
      refused is the absent one with j nearer centroids, and exactly those with fewer become
      resident. Every other cell is as it was. */
  lemma LoadReachesNearest(s: State, xq: Vec, nload: nat, db: nat -> DbReply) returns (j: nat)
    requires Coherent(s) && s.trained && nload <= s.nCells && DbConforms(s, db)
    requires CellsOf(s, Probe(s.geo, xq, nload)) && LoadCells(s, Probe(s.geo, xq, nload), db).ending != Aborted
    ensures j <= nload
    ensures LoadCells(s, Probe(s.geo, xq, nload), db).ending == if j == nload then Done else DbFailed
    ensures var t := LoadCells(s, Probe(s.geo, xq, nload), db).state;
            && Coherent(t) && t.nCells == s.nCells
            && (forall c: nat | c < s.nCells :: Resident(t, c) <==> Resident(s, c) || Rivals(s, xq, c) < j)
            && (forall c: nat | c < s.nCells && (Resident(s, c) || Rivals(s, xq, c) >= j) :: SameCell(s, t, c))
    ensures forall c: nat | c < s.nCells && Rivals(s, xq, c) == j < nload :: !Resident(s, c) && db(c) == Refused
  {
    var cells := Probe(s.geo, xq, nload);
    var r := LoadCells(s, cells, db);
    ProbeInRange(s.geo, xq, nload);
    j := nload;
    if r.ending == DbFailed {
      j := RefusedAt(s, cells, db);
      NthNearest(s, xq, j, cells[j]);
    }
    assert cells[..j] == Probe(s.geo, xq, j);
    LoadCellsKeeps(s, cells[..j], db);
    assert cells[..nload] == cells;
    DoneReaches(s, r.state, xq, j);
  }

  lemma NthNearest(s: State, xq: Vec, j: nat, target: nat)
    requires WellFormed(s) && s.trained && j < s.nCells && target == Rank(s.geo, xq)[j]
    ensures forall c: nat | c < s.nCells && Rivals(s, xq, c) == j :: c == target
  {
    forall c: nat | c < s.nCells && Rivals(s, xq, c) == j
      ensures c == target
    {
      ProbedIffFewCloser(s.geo, xq, j, c);
      ProbedIffFewCloser(s.geo, xq, j + 1, c);
      assert Probe(s.geo, xq, j + 1) == Probe(s.geo, xq, j) + [target];
    }
  }

  lemma DoneReaches(s: State, t: State, xq: Vec, j: nat)
    requires WellFormed(s) && s.trained && WellFormed(t) && t.nCells == s.nCells && j <= s.nCells
    requires Untouched(s, t, Probe(s.geo, xq, j)) && CellsOf(s, Probe(s.geo, xq, j))
    requires forall i | 0 <= i < j :: Resident(t, Probe(s.geo, xq, j)[i])
    ensures forall c: nat | c < s.nCells :: Resident(t, c) <==> Resident(s, c) || Rivals(s, xq, c) < j
    ensures forall c: nat | c < s.nCells && (Resident(s, c) || Rivals(s, xq, c) >= j) :: SameCell(s, t, c)
  {
    forall c: nat | c < s.nCells
      ensures Resident(t, c) <==> Resident(s, c) || Rivals(s, xq, c) < j
      ensures Resident(s, c) || Rivals(s, xq, c) >= j ==> SameCell(s, t, c)
    {
      ProbedIffFewCloser(s.geo, xq, j, c);
      if c in Probe(s.geo, xq, j) {
        var i :| 0 <= i < j && Probe(s.geo, xq, j)[i] == c;
        assert Resident(t, Probe(s.geo, xq, j)[i]);
        assert Resident(s, c) ==> SameCell(s, t, c);
      } else {
        assert SameCell(s, t, c);
      }
    }
  }

  /** EVICT empties exactly the cells with fewer than nevict centroids nearer to xq. */
  lemma EvictReachesNearest(s: State, xq: Vec, nevict: nat)
    requires Coherent(s) && s.trained && nevict <= s.nCells
    ensures CellsOf(s, Probe(s.geo, xq, nevict))
    ensures var t := EvictCells(s, Probe(s.geo, xq, nevict));
            forall c: nat | c < s.nCells ::
              if Rivals(s, xq, c) < nevict then !Resident(t, c) && t.lists[c] == [] else SameCell(s, t, c)
  {
    ProbeInRange(s.geo, xq, nevict);
    EvictCellsKeeps(s, Probe(s.geo, xq, nevict));
    forall c: nat | c < s.nCells
      ensures c in Probe(s.geo, xq, nevict) <==> Rivals(s, xq, c) < nevict
    {
      ProbedIffFewCloser(s.geo, xq, nevict, c);
    }
  }
}

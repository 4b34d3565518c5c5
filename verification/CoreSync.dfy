/** When the database answers what was ADDed: what a resident cell holds, exactly. */
module CoreSync {
  import opened Bytes
  import opened Ranking
  import opened CoreState
  import opened CoreInvariants
  import opened CoreLoads

  /** The database's contents: the record it holds under each id. */
  type Collection = Bytes -> Record

  /** The ids a resident cell had when it was loaded; none when it is not resident. */
  function Snapshot(s: State, c: nat): seq<Bytes>
    requires |s.idsByCell| == |s.residence| && c < |s.residence|
  {
    if 0 <= s.residence[c] <= |s.idsByCell[c]| then s.idsByCell[c][..s.residence[c]] else []
  }

  /** Every id is registered in the cell its record is routed to. */
  ghost predicate Routed(s: State, truth: Collection)
    requires WellFormed(s)
  {
    && (forall c, id | 0 <= c < s.nCells && id in s.idsByCell[c] ::
          Nearest(s.geo, truth(id).embedding) == c && CStr(truth(id).id) == id)
    && (forall id | id in s.idMap :: RegisteredHome(s, truth, id))
  }

  ghost predicate RegisteredHome(s: State, truth: Collection, id: Bytes)
    requires WellFormed(s)
  {
    var c := Nearest(s.geo, truth(id).embedding);
    c < s.nCells && id in s.idsByCell[c]
  }

  /** Everything in a snapshot is stored, as the database has it. */
  ghost predicate Held(s: State, truth: Collection, id: Bytes) {
    id in s.idMap && s.idMap[id] in s.dataMap && s.dataMap[s.idMap[id]] == truth(id)
  }

  ghost predicate SnapshotsHeld(s: State, truth: Collection)
    requires WellFormed(s)
  {
    forall c, id | 0 <= c < s.nCells && id in Snapshot(s, c) :: Held(s, truth, id)
  }

  ghost predicate InSnapshot(s: State, c: nat, n: nat)
    requires WellFormed(s) && c < s.nCells
  {
    n in s.dataMap ==> CStr(s.dataMap[n].id) in Snapshot(s, c)
  }

  ghost predicate OnlySnapshots(s: State)
    requires WellFormed(s)
  {
    forall c, e | 0 <= c < s.nCells && e in s.lists[c] :: InSnapshot(s, c, e.num)
  }

  /** No snapshot names an id twice, however often ids were registered since. */
  ghost predicate Once(s: State)
    requires WellFormed(s)
  {
    forall c | 0 <= c < s.nCells :: NoRepeats(Snapshot(s, c))
  }

  /** The core holds what the database holds: snapshots are stored, each id once, and nothing
      else is. */
  ghost predicate Synced(s: State, truth: Collection)
    requires WellFormed(s)
  {
    Routed(s, truth) && SnapshotsHeld(s, truth) && OnlySnapshots(s) && Once(s)
  }

  /** Each reply carries the database's own records. */
  ghost predicate DbFaithful(db: nat -> DbReply, truth: Collection) {
    forall c: nat, r | db(c).Rows? && r in db(c).rows :: r == truth(CStr(r.id))
  }

  /** The embeddings of an ADD are the ones the database holds. */
  ghost predicate AddFaithful(truth: Collection, ids: seq<Bytes>, vs: seq<Vec>)
    requires |ids| == |vs|
  {
    forall i | 0 <= i < |ids| ::
      && truth(CStr(ids[i])).embedding == vs[i]
      && CStr(truth(CStr(ids[i])).id) == CStr(ids[i])
  }

  // ---------- preservation ----------

  lemma BlankIsSynced(d: nat, nCells: nat, coarse: (Vec, Vec) -> int, fine: (Vec, Vec) -> int, truth: Collection)
    ensures Synced(Blank(d, nCells, coarse, fine), truth)
  {
  }

  lemma TrainKeepsSync(s: State, learned: seq<Vec>, truth: Collection)
    requires Coherent(s) && Synced(s, truth) && |learned| == s.nCells
    ensures Synced(Train(s, learned), truth)
  {
    assert forall id | id in s.idMap :: RegisteredHome(s, truth, id);
    assert !s.trained ==> s.idMap == map[];
  }

  lemma AddOneKeepsSync(s: State, id: Bytes, v: Vec, truth: Collection)
    requires WellFormed(s) && Residency(s) && Synced(s, truth) && s.trained && Nearest(s.geo, v) < s.nCells
    requires truth(CStr(id)).embedding == v && CStr(truth(CStr(id)).id) == CStr(id)
    ensures Synced(AddOne(s, id, v), truth)
  {
    AddOneKeepsRouted(s, id, v, truth);
    AddOneKeepsSnapshots(s, id, v);
    var t := AddOne(s, id, v);
    forall c, i | 0 <= c < s.nCells && i in Snapshot(t, c)
      ensures Held(t, truth, i)
    {
      assert Held(s, truth, i);
    }
    forall c, e | 0 <= c < s.nCells && e in t.lists[c]
      ensures InSnapshot(t, c, e.num)
    {
      assert InSnapshot(s, c, e.num);
    }
  }

  lemma AddOneKeepsSnapshots(s: State, id: Bytes, v: Vec)
    requires WellFormed(s) && Residency(s) && Nearest(s.geo, v) < s.nCells
    ensures forall c | 0 <= c < s.nCells :: Snapshot(AddOne(s, id, v), c) == Snapshot(s, c)
  {
    var t := AddOne(s, id, v);
    forall c | 0 <= c < s.nCells
      ensures Snapshot(t, c) == Snapshot(s, c)
    {
      assert s.idsByCell[c] <= t.idsByCell[c];
    }
  }

  lemma AddOneKeepsRouted(s: State, id: Bytes, v: Vec, truth: Collection)
    requires WellFormed(s) && Routed(s, truth) && Nearest(s.geo, v) < s.nCells
    requires truth(CStr(id)).embedding == v && CStr(truth(CStr(id)).id) == CStr(id)
    ensures Routed(AddOne(s, id, v), truth)
  {
    var t := AddOne(s, id, v);
    forall i | i in t.idMap
      ensures RegisteredHome(t, truth, i)
    {
      assert i != CStr(id) ==> RegisteredHome(s, truth, i);
    }
  }

  lemma {:induction false} AddKeepsSync(s: State, ids: seq<Bytes>, vs: seq<Vec>, truth: Collection)
    requires Coherent(s) && Synced(s, truth) && s.trained && s.nCells > 0 && |ids| == |vs|
    requires AddFaithful(truth, ids, vs)
    ensures Synced(AddRows(s, ids, vs), truth)
    decreases |ids|
  {
    if ids != [] {
      var u := AddOneOfMany(s, ids, vs, truth);
      AddKeepsSync(u, ids[1..], vs[1..], truth);
    }
  }

  lemma RestFaithful(truth: Collection, ids: seq<Bytes>, vs: seq<Vec>)
    requires |ids| == |vs| && ids != [] && AddFaithful(truth, ids, vs)
    ensures AddFaithful(truth, ids[1..], vs[1..])
    ensures truth(CStr(ids[0])).embedding == vs[0] && CStr(truth(CStr(ids[0])).id) == CStr(ids[0])
  {
  }

  lemma RoutedStays(s: State, t: State, truth: Collection)
    requires WellFormed(s) && WellFormed(t) && SameRegistry(s, t) && Routed(s, truth)
    ensures Routed(t, truth)
  {
    forall id | id in t.idMap
      ensures RegisteredHome(t, truth, id)
    {
      assert RegisteredHome(s, truth, id);
    }
  }

  lemma EvictKeepsSync(s: State, c: nat, truth: Collection)
    requires Coherent(s) && Synced(s, truth) && c < s.nCells
    ensures Synced(EvictCell(s, c), truth)
  {
    var t := EvictCell(s, c);
    RoutedStays(s, t, truth);
    forall x, id | 0 <= x < s.nCells && id in Snapshot(t, x)
      ensures Held(t, truth, id)
    {
      HeldElsewhere(s, c, x, id, truth);
    }
    EvictKeepsOnlySnapshots(s, c);
    assert forall x | 0 <= x < s.nCells && x != c :: Snapshot(t, x) == Snapshot(s, x);
  }

  lemma EvictKeepsOnlySnapshots(s: State, c: nat)
    requires WellFormed(s) && OnlySnapshots(s) && c < s.nCells
    ensures OnlySnapshots(EvictCell(s, c))
  {
    var t := EvictCell(s, c);
    forall x, e | 0 <= x < s.nCells && e in t.lists[x]
      ensures InSnapshot(t, x, e.num)
    {
      assert x != c && InSnapshot(s, x, e.num);
    }
  }

  lemma HeldElsewhere(s: State, c: nat, x: nat, id: Bytes, truth: Collection)
    requires Coherent(s) && Synced(s, truth) && c < s.nCells && x < s.nCells
    requires id in Snapshot(EvictCell(s, c), x)
    ensures Held(EvictCell(s, c), truth, id)
  {
    assert x != c && id in Snapshot(s, x) && Held(s, truth, id);
    var home := StoredHome(s, s.idMap[id]);
    assert id in s.idsByCell[x];
    assert home == x;
    NotInTwoLists(s, home, Entry(s.idMap[id], truth(id).embedding), c);
  }

  lemma LoadKeepsSync(s: State, c: nat, rows: seq<Record>, truth: Collection)
    requires Coherent(s) && Synced(s, truth) && c < s.nCells && !Resident(s, c)
    requires Conforms(s.idsByCell[c], rows) && Loadable(s, c, rows)
    requires forall r | r in rows :: r == truth(CStr(r.id))
    ensures Synced(LoadCell(s, c, rows), truth)
  {
    var t := LoadCell(s, c, rows);
    RoutedStays(s, t, truth);
    forall x, id | 0 <= x < s.nCells && id in Snapshot(t, x)
      ensures Held(t, truth, id)
    {
      LoadedIsHeld(s, c, rows, truth, x, id);
    }
    LoadKeepsOnlySnapshots(s, c, rows);
    LoadKeepsOnce(s, c, rows, truth);
  }

  lemma LoadKeepsOnlySnapshots(s: State, c: nat, rows: seq<Record>)
    requires Coherent(s) && OnlySnapshots(s) && c < s.nCells && !Resident(s, c)
    requires Conforms(s.idsByCell[c], rows) && Loadable(s, c, rows)
    ensures OnlySnapshots(LoadCell(s, c, rows))
  {
    var t := LoadCell(s, c, rows);
    forall x, e | 0 <= x < s.nCells && e in t.lists[x]
      ensures InSnapshot(t, x, e.num)
    {
      ListedInSnapshot(s, c, rows, x, e);
    }
  }

  /** A faithful reply that loads shows that no id was registered twice in the cell. */
  lemma LoadKeepsOnce(s: State, c: nat, rows: seq<Record>, truth: Collection)
    requires Coherent(s) && Synced(s, truth) && c < s.nCells && !Resident(s, c)
    requires Conforms(s.idsByCell[c], rows) && Loadable(s, c, rows)
    requires forall r | r in rows :: r == truth(CStr(r.id))
    ensures Once(LoadCell(s, c, rows))
  {
    var t := LoadCell(s, c, rows);
    LoadableIffNoRepeats(s, c, rows, truth);
    assert Snapshot(t, c) == s.idsByCell[c];
    assert forall x | 0 <= x < s.nCells && x != c :: Snapshot(t, x) == Snapshot(s, x);
  }

  lemma LoadedIsHeld(s: State, c: nat, rows: seq<Record>, truth: Collection, x: nat, id: Bytes)
    requires Coherent(s) && Synced(s, truth) && c < s.nCells && x < s.nCells && !Resident(s, c)
    requires Conforms(s.idsByCell[c], rows) && Loadable(s, c, rows)
    requires forall r | r in rows :: r == truth(CStr(r.id))
    requires id in Snapshot(LoadCell(s, c, rows), x)
    ensures Held(LoadCell(s, c, rows), truth, id)
  {
    if x == c {
      assert id in s.idsByCell[c];
      NewlyLoadedIsHeld(s, c, rows, truth, id);
    } else {
      assert id in Snapshot(s, x) && Held(s, truth, id);
      HeldStays(s, c, rows, truth, id);
    }
  }

  lemma NewlyLoadedIsHeld(s: State, c: nat, rows: seq<Record>, truth: Collection, id: Bytes)
    requires WellFormed(s) && Routed(s, truth) && c < s.nCells && id in s.idsByCell[c]
    requires Conforms(s.idsByCell[c], rows) && Loadable(s, c, rows)
    requires forall r | r in rows :: r == truth(CStr(r.id))
    ensures Held(LoadCell(s, c, rows), truth, id)
  {
    ConformingIds(s.idsByCell[c], rows);
    var r :| r in rows && CStr(r.id) == id;
    KeptIsHeld(s, c, rows, r);
  }

  lemma HeldStays(s: State, c: nat, rows: seq<Record>, truth: Collection, id: Bytes)
    requires WellFormed(s) && c < s.nCells && Loadable(s, c, rows) && Held(s, truth, id)
    ensures Held(LoadCell(s, c, rows), truth, id)
  {
    assert s.idMap[id] !in Keyed(s.idMap, Kept(s.geo, c, rows));
  }

  lemma ListedInSnapshot(s: State, c: nat, rows: seq<Record>, x: nat, e: Entry)
    requires Coherent(s) && OnlySnapshots(s) && c < s.nCells && x < s.nCells && !Resident(s, c)
    requires Conforms(s.idsByCell[c], rows) && Loadable(s, c, rows)
    requires e in LoadCell(s, c, rows).lists[x]
    ensures InSnapshot(LoadCell(s, c, rows), x, e.num)
  {
    if x == c {
      assert Stored(LoadCell(s, c, rows), c, e) by {
        LoadKeepsStored(s, c, rows);
      }
    } else {
      assert InSnapshot(s, x, e.num);
      OtherEntryKept(s, c, rows, x, e);
    }
  }

  lemma OtherEntryKept(s: State, c: nat, rows: seq<Record>, x: nat, e: Entry)
    requires Coherent(s) && c < s.nCells && Loadable(s, c, rows)
    requires x < s.nCells && x != c && e in s.lists[x]
    ensures e.num in s.dataMap && LoadCell(s, c, rows).dataMap[e.num] == s.dataMap[e.num]
  {
    assert Stored(s, x, e);
    assert e.num !in Keyed(s.idMap, Kept(s.geo, c, rows));
  }

  lemma KeptIsHeld(s: State, c: nat, rows: seq<Record>, r: Record)
    requires WellFormed(s) && c < s.nCells && Loadable(s, c, rows)
    requires r in rows && Nearest(s.geo, r.embedding) == c
    ensures CStr(r.id) in s.idMap
    ensures var t := LoadCell(s, c, rows); s.idMap[CStr(r.id)] in t.dataMap && t.dataMap[s.idMap[CStr(r.id)]] == r
  {
    var kept := Kept(s.geo, c, rows);
    assert r in kept;
    var i :| 0 <= i < |kept| && kept[i] == r;
    assert Keyed(s.idMap, kept)[s.idMap[CStr(kept[i].id)]] == kept[i];
  }

  lemma {:induction false} LoadCellsKeepsSync(s: State, cells: seq<nat>, db: nat -> DbReply, truth: Collection)
    requires Coherent(s) && Synced(s, truth) && CellsOf(s, cells) && DbConforms(s, db) && DbFaithful(db, truth)
    ensures Synced(LoadCells(s, cells, db).state, truth)
    decreases |cells|
  {
    if cells != [] {
      var c := cells[0];
      if s.residence[c] > -1 {
        LoadCellsKeepsSync(s, cells[1..], db, truth);
      } else if db(c).Rows? && Loadable(s, c, db(c).rows) {
        LoadStep(s, c, db(c).rows);
        LoadKeepsSync(s, c, db(c).rows, truth);
        LoadCellsKeepsSync(LoadCell(s, c, db(c).rows), cells[1..], db, truth);
      }
    }
  }

  lemma {:induction false} EvictCellsKeepsSync(s: State, cells: seq<nat>, truth: Collection)
    requires Coherent(s) && Synced(s, truth) && CellsOf(s, cells)
    ensures Synced(EvictCells(s, cells), truth)
    decreases |cells|
  {
    if cells != [] {
      var c := cells[0];
      if s.residence[c] < 0 {
        EvictCellsKeepsSync(s, cells[1..], truth);
      } else {
        EvictKeepsCoherence(s, c);
        EvictKeepsSync(s, c, truth);
        EvictCellsKeepsSync(EvictCell(s, c), cells[1..], truth);
      }
    }
  }

  // ---------- lists stay within snapshots, whatever the database does ----------

  lemma {:induction false} LoadCellsKeepsOnlySnapshots(s: State, cells: seq<nat>, db: nat -> DbReply)
    requires Coherent(s) && OnlySnapshots(s) && CellsOf(s, cells) && DbConforms(s, db)
    ensures OnlySnapshots(LoadCells(s, cells, db).state)
    decreases |cells|
  {
    if cells != [] {
      var c := cells[0];
      if Resident(s, c) {
        LoadCellsKeepsOnlySnapshots(s, cells[1..], db);
      } else if db(c).Rows? && Loadable(s, c, db(c).rows) {
        LoadStep(s, c, db(c).rows);
        LoadKeepsOnlySnapshots(s, c, db(c).rows);
        LoadCellsKeepsOnlySnapshots(LoadCell(s, c, db(c).rows), cells[1..], db);
      }
    }
  }

  lemma {:induction false} EvictCellsKeepsOnlySnapshots(s: State, cells: seq<nat>)
    requires WellFormed(s) && OnlySnapshots(s) && CellsOf(s, cells)
    ensures OnlySnapshots(EvictCells(s, cells))
    decreases |cells|
  {
    if cells != [] {
      var c := cells[0];
      if s.residence[c] < 0 {
        EvictCellsKeepsOnlySnapshots(s, cells[1..]);
      } else {
        EvictKeepsOnlySnapshots(s, c);
        EvictCellsKeepsOnlySnapshots(EvictCell(s, c), cells[1..]);
      }
    }
  }

  lemma AddOneKeepsOnlySnapshots(s: State, id: Bytes, v: Vec)
    requires WellFormed(s) && Residency(s) && OnlySnapshots(s) && Nearest(s.geo, v) < s.nCells
    ensures OnlySnapshots(AddOne(s, id, v))
  {
    AddOneKeepsSnapshots(s, id, v);
    var t := AddOne(s, id, v);
    forall c, e | 0 <= c < s.nCells && e in t.lists[c]
      ensures InSnapshot(t, c, e.num)
    {
      assert InSnapshot(s, c, e.num);
    }
  }

  lemma {:induction false} AddKeepsOnlySnapshots(s: State, ids: seq<Bytes>, vs: seq<Vec>)
    requires Coherent(s) && OnlySnapshots(s) && s.trained && s.nCells > 0 && |ids| == |vs|
    ensures OnlySnapshots(AddRows(s, ids, vs))
    decreases |ids|
  {
    if ids != [] {
      NearestInRange(s.geo, vs[0]);
      AddOneKeepsCoherence(s, ids[0], vs[0]);
      AddOneKeepsOnlySnapshots(s, ids[0], vs[0]);
      AddKeepsOnlySnapshots(AddOne(s, ids[0], vs[0]), ids[1..], vs[1..]);
    }
  }

  // ---------- ids registered twice ----------

  /** Against a faithful database an absent cell can be loaded exactly when no id is registered
      in it twice: what the caller registered decides, whatever the order of the reply. */
  lemma LoadableIffNoRepeats(s: State, c: nat, rows: seq<Record>, truth: Collection)
    requires Coherent(s) && Synced(s, truth) && c < s.nCells && !Resident(s, c)
    requires Conforms(s.idsByCell[c], rows) && forall r | r in rows :: r == truth(CStr(r.id))
    ensures Loadable(s, c, rows) <==> NoRepeats(s.idsByCell[c])
  {
    var ids := s.idsByCell[c];
    ConformingIds(ids, rows);
    if NoRepeats(ids) {
      ConformingNoRepeats(ids, rows);
      KeptIds(s.geo, c, rows);
      AbsentIdsNotStored(s, c, truth);
      LoadAbortsIff(s, c, rows);
    } else {
      var i, j :| 0 <= i < j < |ids| && ids[i] == ids[j];
      assert ids[i] in ids;
      RepeatedIdBreaksLoad(s, c, i, j, rows);
    }
  }

  lemma AbsentIdsNotStored(s: State, c: nat, truth: Collection)
    requires Coherent(s) && Synced(s, truth) && c < s.nCells && !Resident(s, c)
    ensures forall id | id in s.idsByCell[c] :: NotYetStored(s, id)
  {
    forall id | id in s.idsByCell[c]
      ensures NotYetStored(s, id)
    {
      if !NotYetStored(s, id) {
        StoredIdIsResident(s, c, id, truth);
      }
    }
  }

  lemma StoredIdIsResident(s: State, c: nat, id: Bytes, truth: Collection)
    requires Coherent(s) && Synced(s, truth) && c < s.nCells && id in s.idsByCell[c] && !NotYetStored(s, id)
    ensures Resident(s, c)
  {
    var home := StoredHome(s, s.idMap[id]);
    assert id in s.idsByCell[home];
    assert home == Nearest(s.geo, truth(id).embedding) == c;
  }

  /** Each listed cell is resident or has its ids registered once. */
  ghost predicate Sane(s: State, cells: seq<nat>)
    requires WellFormed(s) && CellsOf(s, cells)
  {
    forall i | 0 <= i < |cells| :: SaneCell(s, cells[i])
  }

  ghost predicate SaneCell(s: State, c: nat)
    requires WellFormed(s) && c < s.nCells
  {
    Resident(s, c) || NoRepeats(s.idsByCell[c])
  }

  lemma SaneFirst(s: State, cells: seq<nat>)
    requires WellFormed(s) && CellsOf(s, cells) && cells != []
    ensures Sane(s, cells) <==> SaneCell(s, cells[0]) && Sane(s, cells[1..])
  {
    if SaneCell(s, cells[0]) && Sane(s, cells[1..]) {
      forall i | 0 <= i < |cells|
        ensures SaneCell(s, cells[i])
      {
        if i > 0 {
          assert SaneCell(s, cells[1..][i - 1]);
        }
      }
    }
    if Sane(s, cells) {
      forall i | 0 <= i < |cells[1..]|
        ensures SaneCell(s, cells[1..][i])
      {
        assert SaneCell(s, cells[i + 1]);
      }
    }
  }

  /** A LOAD that the database answers faithfully completes exactly when no absent cell it asks
      for has an id registered twice; otherwise an assert ends the process. */
  lemma {:induction false} LoadCellsAbortIff(s: State, cells: seq<nat>, db: nat -> DbReply, truth: Collection)
    requires Coherent(s) && Synced(s, truth) && CellsOf(s, cells) && DbConforms(s, db) && DbFaithful(db, truth)
    requires forall i | 0 <= i < |cells| :: db(cells[i]).Rows?
    ensures LoadCells(s, cells, db).ending == if Sane(s, cells) then Done else Aborted
    decreases |cells|
  {
    if cells != [] {
      var c, rest := cells[0], cells[1..];
      assert db(cells[0]).Rows?;
      assert forall i | 0 <= i < |rest| :: rest[i] == cells[i + 1];
      SaneFirst(s, cells);
      if Resident(s, c) {
        LoadCellsAbortIff(s, rest, db, truth);
      } else {
        LoadableIffNoRepeats(s, c, db(c).rows, truth);
        if Loadable(s, c, db(c).rows) {
          LoadStep(s, c, db(c).rows);
          LoadKeepsSync(s, c, db(c).rows, truth);
          LoadCellsAbortIff(LoadCell(s, c, db(c).rows), rest, db, truth);
          SameSanity(s, LoadCell(s, c, db(c).rows), c, rest);
        }
      }
    }
  }

  lemma SameSanity(s: State, t: State, c: nat, rest: seq<nat>)
    requires WellFormed(s) && WellFormed(t) && SameRegistry(s, t) && CellsOf(s, rest) && c < s.nCells
    requires Resident(t, c) && NoRepeats(s.idsByCell[c])
    requires forall x: nat | x < s.nCells && x != c :: SameCell(s, t, x)
    ensures Sane(t, rest) <==> Sane(s, rest)
  {
    forall i | 0 <= i < |rest|
      ensures SaneCell(t, rest[i]) <==> SaneCell(s, rest[i])
    {
      if rest[i] != c {
        assert SameCell(s, t, rest[i]);
      }
    }
  }

  /** The i-th id of an ADD is known from before, or comes earlier in the same ADD. */
  ghost predicate Again(s: State, ids: seq<Bytes>, i: nat)
    requires i < |ids|
  {
    CStr(ids[i]) in s.idMap || EarlierToo(ids, i)
  }

  ghost predicate EarlierToo(ids: seq<Bytes>, i: nat)
    requires i < |ids|
  {
    exists j :: 0 <= j < i && CStr(ids[j]) == CStr(ids[i])
  }

  /** An ADD that registers an id again, from an earlier ADD or within itself, leaves the id's
      cell with a repetition for good: once absent it can never be loaded again. */
  lemma SecondAddBreaksLoad(s: State, ids: seq<Bytes>, vs: seq<Vec>, i: nat, rows: seq<Record>, truth: Collection)
    requires Coherent(s) && Synced(s, truth) && s.trained && s.nCells > 0 && |ids| == |vs| && i < |ids|
    requires AddFaithful(truth, ids, vs) && Again(s, ids, i)
    ensures Nearest(s.geo, vs[i]) < s.nCells
    ensures var c := Nearest(s.geo, vs[i]);
            var t := AddRows(s, ids, vs);
            && !NoRepeats(t.idsByCell[c])
            && Coherent(t) && Synced(t, truth)
            && (!Resident(t, c) && Conforms(t.idsByCell[c], rows) && (forall r | r in rows :: r == truth(CStr(r.id)))
                ==> !Loadable(t, c, rows))
  {
    NearestInRange(s.geo, vs[i]);
    AddKeepsCoherence(s, ids, vs);
    AddKeepsSync(s, ids, vs, truth);
    var c := Nearest(s.geo, vs[i]);
    SecondAddRepeats(s, ids, vs, i, c, truth);
    var t := AddRows(s, ids, vs);
    if !Resident(t, c) && Conforms(t.idsByCell[c], rows) && forall r | r in rows :: r == truth(CStr(r.id)) {
      LoadableIffNoRepeats(t, c, rows, truth);
    }
  }

  lemma SecondAddRepeats(s: State, ids: seq<Bytes>, vs: seq<Vec>, i: nat, c: nat, truth: Collection)
    requires Coherent(s) && Synced(s, truth) && s.trained && s.nCells > 0 && |ids| == |vs| && i < |ids|
    requires AddFaithful(truth, ids, vs) && Again(s, ids, i) && c == Nearest(s.geo, vs[i]) < s.nCells
    ensures !NoRepeats(AddRows(s, ids, vs).idsByCell[c])
  {
    var t := AddRows(s, ids[..i], vs[..i]);
    FaithfulParts(truth, ids, vs, i);
    AddKeepsCoherence(s, ids[..i], vs[..i]);
    AddKeepsSync(s, ids[..i], vs[..i], truth);
    AgainIsKnown(s, ids, vs, i);
    FirstIdRepeats(t, ids[i..], vs[i..], c, truth);
    AddInTwo(s, ids[..i], vs[..i], ids[i..], vs[i..]);
    TakeDrop(ids, i);
    TakeDrop(vs, i);
  }

  lemma FaithfulParts(truth: Collection, ids: seq<Bytes>, vs: seq<Vec>, i: nat)
    requires |ids| == |vs| && i <= |ids| && AddFaithful(truth, ids, vs)
    ensures AddFaithful(truth, ids[..i], vs[..i]) && AddFaithful(truth, ids[i..], vs[i..])
  {
  }

  /** After the ids before it, an id that comes again is known. */
  lemma AgainIsKnown(s: State, ids: seq<Bytes>, vs: seq<Vec>, i: nat)
    requires WellFormed(s) && s.trained && s.nCells > 0 && |ids| == |vs| && i < |ids| && Again(s, ids, i)
    ensures CStr(ids[i]) in AddRows(s, ids[..i], vs[..i]).idMap
  {
    AddKeepsNumbers(s, ids[..i], vs[..i]);
    if EarlierToo(ids, i) {
      var j :| 0 <= j < i && CStr(ids[j]) == CStr(ids[i]);
      InIdSet(ids[..i], j);
    }
  }

  lemma {:induction false} InIdSet(ids: seq<Bytes>, j: nat)
    requires j < |ids|
    ensures CStr(ids[j]) in IdSet(ids)
    decreases j
  {
    if j > 0 {
      InIdSet(ids[1..], j - 1);
    }
  }

  /** Registering two lists is registering one after the other. */
  lemma {:induction false} AddInTwo(s: State, a: seq<Bytes>, va: seq<Vec>, b: seq<Bytes>, vb: seq<Vec>)
    requires WellFormed(s) && s.trained && s.nCells > 0 && |a| == |va| && |b| == |vb|
    ensures AddRows(s, a + b, va + vb) == AddRows(AddRows(s, a, va), b, vb)
    decreases |a|
  {
    if a == [] {
      assert a + b == b && va + vb == vb;
    } else {
      NearestInRange(s.geo, va[0]);
      assert (a + b)[1..] == a[1..] + b && (va + vb)[1..] == va[1..] + vb;
      AddInTwo(AddOne(s, a[0], va[0]), a[1..], va[1..], b, vb);
    }
  }

  lemma FirstIdRepeats(s: State, ids: seq<Bytes>, vs: seq<Vec>, c: nat, truth: Collection)
    requires Coherent(s) && Synced(s, truth) && s.trained && s.nCells > 0 && |ids| == |vs| && ids != []
    requires AddFaithful(truth, ids, vs) && CStr(ids[0]) in s.idMap && c == Nearest(s.geo, vs[0]) < s.nCells
    ensures !NoRepeats(AddRows(s, ids, vs).idsByCell[c])
  {
    var u := AddOneOfMany(s, ids, vs, truth);
    KnownIdRepeats(s, ids[0], vs[0], truth);
    RepeatsGrow(u, ids[1..], vs[1..], c);
  }

  /** The first registration of an ADD, and what the rest starts from. */
  lemma AddOneOfMany(s: State, ids: seq<Bytes>, vs: seq<Vec>, truth: Collection) returns (u: State)
    requires Coherent(s) && Synced(s, truth) && s.trained && s.nCells > 0 && |ids| == |vs| && ids != []
    requires AddFaithful(truth, ids, vs)
    ensures Nearest(s.geo, vs[0]) < s.nCells && u == AddOne(s, ids[0], vs[0])
    ensures Coherent(u) && Synced(u, truth) && u.trained && u.nCells == s.nCells && u.geo == s.geo
    ensures AddFaithful(truth, ids[1..], vs[1..]) && AddRows(s, ids, vs) == AddRows(u, ids[1..], vs[1..])
    ensures CStr(ids[0]) in u.idMap && forall id | id in s.idMap :: id in u.idMap
  {
    NearestInRange(s.geo, vs[0]);
    RestFaithful(truth, ids, vs);
    u := AddOne(s, ids[0], vs[0]);
    AddOneKeepsCoherence(s, ids[0], vs[0]);
    AddOneKeepsSync(s, ids[0], vs[0], truth);
  }

  lemma KnownIdRepeats(s: State, id: Bytes, v: Vec, truth: Collection)
    requires WellFormed(s) && Routed(s, truth) && CStr(id) in s.idMap
    requires truth(CStr(id)).embedding == v
    ensures Nearest(s.geo, v) < s.nCells && !NoRepeats(AddOne(s, id, v).idsByCell[Nearest(s.geo, v)])
  {
    assert RegisteredHome(s, truth, CStr(id));
    var ids := s.idsByCell[Nearest(s.geo, v)];
    var j :| 0 <= j < |ids| && ids[j] == CStr(id);
    assert (ids + [CStr(id)])[j] == (ids + [CStr(id)])[|ids|];
  }

  /** Registrations are only appended. */
  lemma {:induction false} AddGrows(s: State, ids: seq<Bytes>, vs: seq<Vec>, c: nat)
    requires WellFormed(s) && s.trained && s.nCells > 0 && |ids| == |vs| && c < s.nCells
    ensures s.idsByCell[c] <= AddRows(s, ids, vs).idsByCell[c]
    decreases |ids|
  {
    if ids != [] {
      NearestInRange(s.geo, vs[0]);
      var u := AddOne(s, ids[0], vs[0]);
      assert s.idsByCell[c] <= u.idsByCell[c];
      AddGrows(u, ids[1..], vs[1..], c);
    }
  }

  lemma RepeatsGrow(s: State, ids: seq<Bytes>, vs: seq<Vec>, c: nat)
    requires WellFormed(s) && s.trained && s.nCells > 0 && |ids| == |vs| && c < s.nCells && !NoRepeats(s.idsByCell[c])
    ensures !NoRepeats(AddRows(s, ids, vs).idsByCell[c])
  {
    AddGrows(s, ids, vs, c);
    RepeatsStay(s.idsByCell[c], AddRows(s, ids, vs).idsByCell[c]);
  }

  lemma RepeatsStay<T>(before: seq<T>, after: seq<T>)
    requires before <= after && !NoRepeats(before)
    ensures !NoRepeats(after)
  {
    var a, b :| 0 <= a < b < |before| && before[a] == before[b];
    assert after[a] == after[b];
  }

  // ---------- the snapshot-prefix law ----------

  function ListNums(list: seq<Entry>): (r: seq<nat>)
    ensures |r| == |list|
  {
    seq(|list|, i requires 0 <= i < |list| => list[i].num)
  }

  function NumsOfIds(idMap: map<Bytes, nat>, ids: seq<Bytes>): (r: seq<nat>)
    requires forall id | id in ids :: id in idMap
    ensures |r| == |ids|
  {
    seq(|ids|, i requires 0 <= i < |ids| => idMap[ids[i]])
  }

  /** A cell's list holds, counted with multiplicity, the numbers of the ids the cell had when
      it was loaded: the first residence_statuses[c] of them, however many came after, and
      whether or not any of them was registered again. */
  lemma SnapshotPrefix(s: State, c: nat, truth: Collection)
    requires Coherent(s) && Synced(s, truth) && c < s.nCells
    ensures forall id | id in Snapshot(s, c) :: id in s.idMap
    ensures multiset(ListNums(s.lists[c])) == multiset(NumsOfIds(s.idMap, Snapshot(s, c)))
    ensures Resident(s, c) ==> Snapshot(s, c) == s.idsByCell[c][..s.residence[c]]
    ensures |s.lists[c]| == if Resident(s, c) then s.residence[c] else 0
  {
    var snap := Snapshot(s, c);
    assert forall id | id in snap :: Held(s, truth, id);
    var nums, known := ListNums(s.lists[c]), NumsOfIds(s.idMap, snap);
    SnapshotNumsDiffer(s, c);
    ListInSnapshot(s, c);
    SnapshotInList(s, c, truth);
    SameElementsOnce(nums, known);
    assert |multiset(nums)| == |nums| && |multiset(known)| == |known|;
  }

  /** Whatever the database answers, a cell's list holds, counted with multiplicity, no more than
      the numbers of the ids the cell had when it was loaded. */
  lemma ListWithinSnapshot(s: State, c: nat)
    requires Coherent(s) && OnlySnapshots(s) && c < s.nCells
    ensures forall id | id in Snapshot(s, c) :: id in s.idMap
    ensures multiset(ListNums(s.lists[c])) <= multiset(NumsOfIds(s.idMap, Snapshot(s, c)))
  {
    assert forall id | id in Snapshot(s, c) :: id in s.idsByCell[c];
    var nums, known := ListNums(s.lists[c]), NumsOfIds(s.idMap, Snapshot(s, c));
    ListInSnapshot(s, c);
    forall x
      ensures multiset(nums)[x] <= multiset(known)[x]
    {
      OnceInMultiset(nums, x);
      assert x in nums <==> x in multiset(nums);
      assert x in known <==> x in multiset(known);
    }
  }

  lemma SnapshotNumsDiffer(s: State, c: nat)
    requires Coherent(s) && Once(s) && c < s.nCells
    requires forall id | id in Snapshot(s, c) :: id in s.idMap
    ensures NoRepeats(NumsOfIds(s.idMap, Snapshot(s, c)))
  {
    var snap := Snapshot(s, c);
    forall i, j | 0 <= i < j < |snap|
      ensures s.idMap[snap[i]] != s.idMap[snap[j]]
    {
      assert snap[i] in snap && snap[j] in snap;
      assert snap[i] != snap[j];
    }
  }

  lemma ListInSnapshot(s: State, c: nat)
    requires Coherent(s) && OnlySnapshots(s) && c < s.nCells
    requires forall id | id in Snapshot(s, c) :: id in s.idMap
    ensures forall n | n in ListNums(s.lists[c]) :: n in NumsOfIds(s.idMap, Snapshot(s, c))
  {
    var snap := Snapshot(s, c);
    var nums, known := ListNums(s.lists[c]), NumsOfIds(s.idMap, snap);
    forall n | n in nums
      ensures n in known
    {
      var i :| 0 <= i < |nums| && nums[i] == n;
      var e := s.lists[c][i];
      assert Stored(s, c, e) && InSnapshot(s, c, e.num);
      var j :| 0 <= j < |snap| && snap[j] == CStr(s.dataMap[n].id);
      assert known[j] == n;
    }
  }

  lemma SnapshotInList(s: State, c: nat, truth: Collection)
    requires Coherent(s) && Synced(s, truth) && c < s.nCells
    requires forall id | id in Snapshot(s, c) :: id in s.idMap
    ensures forall n | n in NumsOfIds(s.idMap, Snapshot(s, c)) :: n in ListNums(s.lists[c])
  {
    var snap := Snapshot(s, c);
    var known := NumsOfIds(s.idMap, snap);
    forall n | n in known
      ensures n in ListNums(s.lists[c])
    {
      var j :| 0 <= j < |known| && known[j] == n;
      assert snap[j] in snap;
      HeldIsListed(s, c, truth, snap[j]);
    }
  }

  lemma HeldIsListed(s: State, c: nat, truth: Collection, id: Bytes)
    requires Coherent(s) && Synced(s, truth) && c < s.nCells && id in Snapshot(s, c) && id in s.idMap
    ensures s.idMap[id] in ListNums(s.lists[c])
  {
    assert Held(s, truth, id) && id in s.idsByCell[c];
    var n := s.idMap[id];
    var home := StoredHome(s, n);
    assert home == c;
    var i :| 0 <= i < |s.lists[c]| && s.lists[c][i] == Entry(n, s.dataMap[n].embedding);
    assert ListNums(s.lists[c])[i] == n;
  }

  lemma SameElementsOnce<T>(a: seq<T>, b: seq<T>)
    requires NoRepeats(a) && NoRepeats(b)
    requires forall x | x in a :: x in b
    requires forall x | x in b :: x in a
    ensures multiset(a) == multiset(b)
  {
    forall x
      ensures multiset(a)[x] == multiset(b)[x]
    {
      OnceInMultiset(a, x);
      OnceInMultiset(b, x);
      assert x in a <==> x in multiset(a);
      assert x in b <==> x in multiset(b);
    }
  }
}

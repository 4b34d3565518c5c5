/** What a search answers, and why a hit answers like an index with everything loaded. */
module CoreSearch {
  import opened Bytes
  import opened Ranking
  import opened CoreState
  import opened CoreInvariants
  import opened CoreLoads
  import opened CoreSync

  /** What one query gets: a miss, or the records behind the labels, best first. */
  datatype Answer = Miss | Found(records: seq<Record>)

  ghost predicate Fetchable(s: State, hits: seq<Hit>) {
    forall h | h in hits :: h.num in s.dataMap
  }

  ghost function Fetch(s: State, hits: seq<Hit>): (r: seq<Record>)
    requires Fetchable(s, hits)
    ensures |r| == |hits|
  {
    seq(|hits|, i requires 0 <= i < |hits| => s.dataMap[hits[i].num])
  }

  /** Residency is decided for q; the index is searched for w. */
  ghost function Query(s: State, q: Vec, w: Vec, k: nat, nprobe: nat, requireAll: bool): Answer
    requires Coherent(s) && s.trained && 1 <= nprobe <= s.nCells
  {
    if IsHit(s, q, nprobe, requireAll) then
      ScanIsStored(s, w, k, nprobe);
      Found(Fetch(s, Scan(s, w, k, nprobe)))
    else Miss
  }

  // ---------- the pool a scan selects from ----------

  lemma {:induction false} PoolIsStored(s: State, q: Vec, cells: seq<nat>, h: Hit) returns (c: nat)
    requires Coherent(s) && CellsOf(s, cells) && h in PoolOf(s, q, cells)
    ensures c in cells && c < s.nCells
    ensures h.num in s.dataMap && Entry(h.num, s.dataMap[h.num].embedding) in s.lists[c]
    ensures h.score == s.geo.fine(q, s.dataMap[h.num].embedding)
    decreases |cells|
  {
    var first := ListHits(s.geo, q, s.lists[cells[0]]);
    if h in first {
      c := cells[0];
      var i :| 0 <= i < |first| && first[i] == h;
      assert Stored(s, c, s.lists[c][i]);
    } else {
      c := PoolIsStored(s, q, cells[1..], h);
    }
  }

  lemma {:induction false} StoredIsPooled(s: State, q: Vec, cells: seq<nat>, c: nat, e: Entry)
    requires WellFormed(s) && CellsOf(s, cells) && c in cells && e in s.lists[c]
    ensures Hit(s.geo.fine(q, e.vec), e.num) in PoolOf(s, q, cells)
    decreases |cells|
  {
    var first := ListHits(s.geo, q, s.lists[cells[0]]);
    if c == cells[0] {
      var i :| 0 <= i < |s.lists[c]| && s.lists[c][i] == e;
      assert first[i] in first;
    } else {
      StoredIsPooled(s, q, cells[1..], c, e);
    }
  }

  lemma {:induction false} PoolNoRepeats(s: State, q: Vec, cells: seq<nat>)
    requires Coherent(s) && CellsOf(s, cells) && NoRepeats(cells)
    ensures NoRepeats(PoolOf(s, q, cells))
    decreases |cells|
  {
    if cells != [] {
      var first := ListHits(s.geo, q, s.lists[cells[0]]);
      var rest := PoolOf(s, q, cells[1..]);
      PoolNoRepeats(s, q, cells[1..]);
      forall i, j | 0 <= i < |first| && 0 <= j < |rest|
        ensures first[i] != rest[j]
      {
        assert rest[j] in rest;
        var c := PoolIsStored(s, q, cells[1..], rest[j]);
        assert c != cells[0];
        NotInTwoLists(s, cells[0], s.lists[cells[0]][i], c);
      }
      forall i, j | 0 <= i < j < |first|
        ensures first[i] != first[j]
      {
        assert s.lists[cells[0]][i].num != s.lists[cells[0]][j].num;
      }
    }
  }

  lemma ScanIsBest(s: State, q: Vec, k: nat, nprobe: nat)
    requires Coherent(s) && s.trained && nprobe <= s.nCells
    ensures CellsOf(s, Probe(s.geo, q, nprobe))
    ensures IsBest(Scan(s, q, k, nprobe), Pool(PoolOf(s, q, Probe(s.geo, q, nprobe))), k)
  {
    ProbeInRange(s.geo, q, nprobe);
    PoolNoRepeats(s, q, Probe(s.geo, q, nprobe));
    BestIsBest(PoolOf(s, q, Probe(s.geo, q, nprobe)), k);
  }

  /** The assert behind every label holds, and every record returned was loaded into a probed
      resident cell under an id registered there. No consistency of the database is needed. */
  lemma ScanIsStored(s: State, q: Vec, k: nat, nprobe: nat)
    requires Coherent(s) && s.trained && nprobe <= s.nCells
    ensures Fetchable(s, Scan(s, q, k, nprobe))
    ensures forall h | h in Scan(s, q, k, nprobe) ::
              h.num in s.dataMap && FromProbedCell(s, q, nprobe, s.dataMap[h.num])
  {
    ScanIsBest(s, q, k, nprobe);
    forall h | h in Scan(s, q, k, nprobe)
      ensures h.num in s.dataMap && FromProbedCell(s, q, nprobe, s.dataMap[h.num])
    {
      var c := PoolIsStored(s, q, Probe(s.geo, q, nprobe), h);
      assert Stored(s, c, Entry(h.num, s.dataMap[h.num].embedding));
    }
  }

  ghost predicate FromProbedCell(s: State, q: Vec, nprobe: nat, r: Record)
    requires WellFormed(s) && nprobe <= |s.geo.centroids|
  {
    var c := Nearest(s.geo, r.embedding);
    c < s.nCells && c in Probe(s.geo, q, nprobe) && Resident(s, c) && CStr(r.id) in s.idsByCell[c]
  }

  // ---------- the answer in terms of the collection ----------

  /** The registered ids routed to the given cells before those were loaded, each scored with
      the embedding the database holds: no inverted list and no data map is consulted. */
  ghost function SnapshotHits(s: State, truth: Collection, q: Vec, cells: seq<nat>): set<Hit>
    requires WellFormed(s)
  {
    set c, id | c in cells && c < s.nCells && id in Snapshot(s, c) && id in s.idMap ::
      Hit(s.geo.fine(q, truth(id).embedding), s.idMap[id])
  }

  /** The whole collection routed to the given cells: what an index with every registered
      vector loaded would score. */
  ghost function CollectionHits(s: State, truth: Collection, q: Vec, cells: seq<nat>): set<Hit> {
    set id | id in s.idMap && Nearest(s.geo, truth(id).embedding) in cells ::
      Hit(s.geo.fine(q, truth(id).embedding), s.idMap[id])
  }

  lemma PoolIsSnapshot(s: State, truth: Collection, q: Vec, cells: seq<nat>)
    requires Coherent(s) && Synced(s, truth) && CellsOf(s, cells)
    ensures Pool(PoolOf(s, q, cells)) == SnapshotHits(s, truth, q, cells)
  {
    forall h: Hit
      ensures h in Pool(PoolOf(s, q, cells)) <==> h in SnapshotHits(s, truth, q, cells)
    {
      if h in PoolOf(s, q, cells) {
        PooledIsInSnapshot(s, truth, q, cells, h);
      }
      if h in SnapshotHits(s, truth, q, cells) {
        SnapshotIsPooled(s, truth, q, cells, h);
      }
    }
  }

  lemma PooledIsInSnapshot(s: State, truth: Collection, q: Vec, cells: seq<nat>, h: Hit)
    requires Coherent(s) && Synced(s, truth) && CellsOf(s, cells) && h in PoolOf(s, q, cells)
    ensures h in SnapshotHits(s, truth, q, cells)
  {
    var c := PoolIsStored(s, q, cells, h);
    assert Stored(s, c, Entry(h.num, s.dataMap[h.num].embedding));
    assert InSnapshot(s, c, h.num) by {
      assert InSnapshot(s, c, Entry(h.num, s.dataMap[h.num].embedding).num);
    }
    var id := CStr(s.dataMap[h.num].id);
    assert id in Snapshot(s, c) && Held(s, truth, id);
  }

  lemma SnapshotIsPooled(s: State, truth: Collection, q: Vec, cells: seq<nat>, h: Hit)
    requires Coherent(s) && Synced(s, truth) && CellsOf(s, cells) && h in SnapshotHits(s, truth, q, cells)
    ensures h in PoolOf(s, q, cells)
  {
    var c: nat, id :| c in cells && c < s.nCells && id in Snapshot(s, c) && id in s.idMap &&
      h == Hit(s.geo.fine(q, truth(id).embedding), s.idMap[id]);
    assert Held(s, truth, id) && id in s.idsByCell[c];
    var home := StoredHome(s, h.num);
    assert home == c;
    StoredIsPooled(s, q, cells, c, Entry(h.num, truth(id).embedding));
  }

  /** A scan returns the k best of the snapshots of the resident probed cells. */
  lemma ScanAnswersSnapshot(s: State, truth: Collection, q: Vec, k: nat, nprobe: nat)
    requires Coherent(s) && Synced(s, truth) && s.trained && nprobe <= s.nCells
    ensures IsBest(Scan(s, q, k, nprobe), SnapshotHits(s, truth, q, Probe(s.geo, q, nprobe)), k)
  {
    ScanIsBest(s, q, k, nprobe);
    PoolIsSnapshot(s, truth, q, Probe(s.geo, q, nprobe));
  }

  /** Every id registered in the cell was there when the cell was loaded. */
  ghost predicate Fresh(s: State, c: nat)
    requires WellFormed(s) && c < s.nCells
  {
    forall id | id in s.idsByCell[c] :: id in Snapshot(s, c)
  }

  /** A scan returns the k best of the whole registered collection in the nprobe nearest cells,
      for every k, exactly when nothing was added to those cells since they were loaded. Nothing
      is asked about residency: an absent cell is fresh when nothing is registered in it. */
  lemma ScanAnswersCollectionIff(s: State, truth: Collection, q: Vec, nprobe: nat)
    requires Coherent(s) && Synced(s, truth) && s.trained && nprobe <= s.nCells
    ensures (forall k: nat :: IsBest(Scan(s, q, k, nprobe), CollectionHits(s, truth, q, Probe(s.geo, q, nprobe)), k))
            <==> forall c: nat | c < s.nCells && c in Probe(s.geo, q, nprobe) :: Fresh(s, c)
  {
    var cells := Probe(s.geo, q, nprobe);
    if forall c: nat | c < s.nCells && c in cells :: Fresh(s, c) {
      FreshSnapshotsAreAll(s, truth, q, cells);
      forall k: nat
        ensures IsBest(Scan(s, q, k, nprobe), CollectionHits(s, truth, q, cells), k)
      {
        ScanAnswersSnapshot(s, truth, q, k, nprobe);
      }
    } else {
      var c: nat :| c < s.nCells && c in cells && !Fresh(s, c);
      StaleScanMisses(s, truth, q, |SnapshotHits(s, truth, q, cells)| + 1, nprobe, c);
    }
  }

  /** With a cell that grew since it was loaded among the probed ones, asking for more than the
      snapshots hold gets less than the collection has. */
  lemma StaleScanMisses(s: State, truth: Collection, q: Vec, k: nat, nprobe: nat, c: nat)
    requires Coherent(s) && Synced(s, truth) && s.trained && nprobe <= s.nCells
    requires c < s.nCells && c in Probe(s.geo, q, nprobe) && !Fresh(s, c)
    requires k > |SnapshotHits(s, truth, q, Probe(s.geo, q, nprobe))|
    ensures !IsBest(Scan(s, q, k, nprobe), CollectionHits(s, truth, q, Probe(s.geo, q, nprobe)), k)
  {
    var cells := Probe(s.geo, q, nprobe);
    var snap, scan := SnapshotHits(s, truth, q, cells), Scan(s, q, k, nprobe);
    ScanAnswersSnapshot(s, truth, q, k, nprobe);
    NoMoreThanPool(scan, snap);
    var id :| id in s.idsByCell[c] && id !in Snapshot(s, c);
    var h := Hit(s.geo.fine(q, truth(id).embedding), s.idMap[id]);
    assert h in CollectionHits(s, truth, q, cells);
    if h in snap {
      NumberNamesId(s, truth, q, cells, c, id);
    }
  }

  lemma {:induction false} NoMoreThanPool(best: seq<Hit>, pool: set<Hit>)
    requires Ascending(best) && forall h | h in best :: h in pool
    ensures |best| <= |pool|
    decreases |best|
  {
    if best != [] {
      var n := |best| - 1;
      var last := best[n];
      forall h | h in best[..n]
        ensures h in pool - {last}
      {
        var i :| 0 <= i < n && best[i] == h;
        assert Before(best[i], best[n]);
      }
      assert last in best;
      NoMoreThanPool(best[..n], pool - {last});
    }
  }

  /** A snapshot's hit under an id's number is that id's, in that id's cell. */
  lemma NumberNamesId(s: State, truth: Collection, q: Vec, cells: seq<nat>, c: nat, id: Bytes)
    requires Coherent(s) && Routed(s, truth) && c < s.nCells && id in s.idsByCell[c] && id in s.idMap
    requires Hit(s.geo.fine(q, truth(id).embedding), s.idMap[id]) in SnapshotHits(s, truth, q, cells)
    ensures id in Snapshot(s, c)
  {
    var a: nat, x :| a in cells && a < s.nCells && x in Snapshot(s, a) && x in s.idMap &&
      Hit(s.geo.fine(q, truth(id).embedding), s.idMap[id]) == Hit(s.geo.fine(q, truth(x).embedding), s.idMap[x]);
    assert x == id && x in s.idsByCell[a];
  }

  /** With ids registered once in the cell, freshness is what the counters say. */
  lemma FreshIffCounted(s: State, c: nat)
    requires Coherent(s) && c < s.nCells && Resident(s, c) && NoRepeats(s.idsByCell[c])
    ensures Fresh(s, c) <==> s.residence[c] == |s.idsByCell[c]|
  {
    var ids, snap := s.idsByCell[c], Snapshot(s, c);
    assert snap == ids[..s.residence[c]];
    if s.residence[c] < |ids| {
      var id := ids[s.residence[c]];
      assert id in ids;
      assert forall j | 0 <= j < |snap| :: snap[j] == ids[j] && ids[j] != id;
    } else {
      assert snap == ids;
    }
  }

  /** A require_all hit answers over the whole registered collection in the probed cells, for
      every k, exactly when each of those cells was loaded with as many ids as it has now; an id
      registered twice there would count twice. */
  lemma HitAnswersCollectionIff(s: State, truth: Collection, q: Vec, nprobe: nat)
    requires Coherent(s) && Synced(s, truth) && s.trained && 1 <= nprobe <= s.nCells
    requires forall c: nat | c < s.nCells && c in Probe(s.geo, q, nprobe) :: NoRepeats(s.idsByCell[c])
    requires IsHit(s, q, nprobe, true)
    ensures (forall k: nat :: IsBest(Scan(s, q, k, nprobe), CollectionHits(s, truth, q, Probe(s.geo, q, nprobe)), k))
            <==> forall c: nat | c < s.nCells && c in Probe(s.geo, q, nprobe) :: s.residence[c] == |s.idsByCell[c]|
  {
    var cells := Probe(s.geo, q, nprobe);
    ScanAnswersCollectionIff(s, truth, q, nprobe);
    HitProbesResidents(s, q, nprobe);
    forall c: nat | c < s.nCells && c in cells
      ensures Fresh(s, c) <==> s.residence[c] == |s.idsByCell[c]|
    {
      var i :| 0 <= i < nprobe && cells[i] == c;
      assert Resident(s, cells[i]);
      FreshIffCounted(s, c);
    }
  }

  lemma FreshSnapshotsAreAll(s: State, truth: Collection, q: Vec, cells: seq<nat>)
    requires WellFormed(s) && Routed(s, truth) && Residency(s)
    requires forall c: nat | c < s.nCells && c in cells :: Fresh(s, c)
    ensures SnapshotHits(s, truth, q, cells) == CollectionHits(s, truth, q, cells)
  {
    forall h: Hit
      ensures h in SnapshotHits(s, truth, q, cells) <==> h in CollectionHits(s, truth, q, cells)
    {
      if h in CollectionHits(s, truth, q, cells) {
        RegisteredIsFresh(s, truth, q, cells, h);
      }
      if h in SnapshotHits(s, truth, q, cells) {
        FreshIsRegistered(s, truth, q, cells, h);
      }
    }
  }

  lemma RegisteredIsFresh(s: State, truth: Collection, q: Vec, cells: seq<nat>, h: Hit)
    requires WellFormed(s) && Routed(s, truth) && Residency(s)
    requires forall c: nat | c < s.nCells && c in cells :: Fresh(s, c)
    requires h in CollectionHits(s, truth, q, cells)
    ensures h in SnapshotHits(s, truth, q, cells)
  {
    var id :| id in s.idMap && Nearest(s.geo, truth(id).embedding) in cells &&
      h == Hit(s.geo.fine(q, truth(id).embedding), s.idMap[id]);
    assert RegisteredHome(s, truth, id);
    var c := Nearest(s.geo, truth(id).embedding);
    assert Fresh(s, c) && id in Snapshot(s, c);
  }

  lemma FreshIsRegistered(s: State, truth: Collection, q: Vec, cells: seq<nat>, h: Hit)
    requires WellFormed(s) && Routed(s, truth) && Residency(s)
    requires h in SnapshotHits(s, truth, q, cells)
    ensures h in CollectionHits(s, truth, q, cells)
  {
    var c: nat, id :| c in cells && c < s.nCells && id in Snapshot(s, c) && id in s.idMap &&
      h == Hit(s.geo.fine(q, truth(id).embedding), s.idMap[id]);
    assert id in s.idsByCell[c];
  }

  // ---------- what a hit returns, without labels ----------

  /** A hit is decided by the centroids nearer to the query: under require_all every cell with
      fewer than nprobe of them is resident, otherwise the one with none is. */
  lemma HitIffNearestResident(s: State, q: Vec, nprobe: nat)
    requires Coherent(s) && s.trained && 1 <= nprobe <= s.nCells
    ensures IsHit(s, q, nprobe, true) <==> forall c: nat | c < s.nCells && Rivals(s, q, c) < nprobe :: Resident(s, c)
    ensures IsHit(s, q, nprobe, false) <==> forall c: nat | c < s.nCells && Rivals(s, q, c) == 0 :: Resident(s, c)
    ensures exists c: nat :: c < s.nCells && Rivals(s, q, c) == 0
  {
    var cells := Probe(s.geo, q, nprobe);
    HitProbesResidents(s, q, nprobe);
    forall c: nat | c < s.nCells
      ensures c in cells <==> Rivals(s, q, c) < nprobe
      ensures c == cells[0] <==> Rivals(s, q, c) == 0
    {
      ProbedIffFewCloser(s.geo, q, nprobe, c);
      ProbedIffFewCloser(s.geo, q, 1, c);
      assert Probe(s.geo, q, 1) == [cells[0]];
    }
    assert forall i | 0 <= i < nprobe :: cells[i] in cells && cells[i] < s.nCells;
  }

  /** A stored record that a scan of the nprobe cells nearest to w reads. */
  ghost predicate InReach(s: State, w: Vec, nprobe: nat, r: Record)
    requires WellFormed(s) && s.trained
  {
    && CStr(r.id) in s.idMap
    && s.idMap[CStr(r.id)] in s.dataMap
    && s.dataMap[s.idMap[CStr(r.id)]] == r
    && var c := Nearest(s.geo, r.embedding);
    && c < s.nCells
    && Rivals(s, w, c) < nprobe
  }

  /** Record a scores better against w than b does; ties go to the id registered first. */
  ghost predicate Ahead(s: State, w: Vec, a: Record, b: Record)
  {
    && CStr(a.id) in s.idMap && CStr(b.id) in s.idMap
    && var x, y := s.geo.fine(w, a.embedding), s.geo.fine(w, b.embedding);
    x < y || (x == y && s.idMap[CStr(a.id)] < s.idMap[CStr(b.id)])
  }

  /** The k best stored records in reach of w: no label, list or sorting is mentioned. */
  ghost predicate NearestStored(s: State, w: Vec, k: nat, nprobe: nat, rs: seq<Record>)
    requires WellFormed(s) && s.trained
  {
    && |rs| <= k
    && (forall r | r in rs :: InReach(s, w, nprobe, r))
    && (forall i, j | 0 <= i < j < |rs| :: Ahead(s, w, rs[i], rs[j]))
    && (forall r | InReach(s, w, nprobe, r) && r !in rs :: |rs| == k && forall a | a in rs :: Ahead(s, w, a, r))
  }

  function HitOf(s: State, w: Vec, r: Record): Hit
    requires CStr(r.id) in s.idMap
  {
    Hit(s.geo.fine(w, r.embedding), s.idMap[CStr(r.id)])
  }

  /** The hits of a scan are those of the records in reach. */
  lemma ReachIsPool(s: State, w: Vec, nprobe: nat)
    requires Coherent(s) && s.trained && nprobe <= s.nCells
    ensures CellsOf(s, Probe(s.geo, w, nprobe))
    ensures forall h | h in PoolOf(s, w, Probe(s.geo, w, nprobe)) :: IsReached(s, w, nprobe, h)
    ensures forall r | InReach(s, w, nprobe, r) :: HitOf(s, w, r) in PoolOf(s, w, Probe(s.geo, w, nprobe))
  {
    ProbeInRange(s.geo, w, nprobe);
    forall h | h in PoolOf(s, w, Probe(s.geo, w, nprobe))
      ensures IsReached(s, w, nprobe, h)
    {
      PooledIsReached(s, w, nprobe, h);
    }
    forall r | InReach(s, w, nprobe, r)
      ensures HitOf(s, w, r) in PoolOf(s, w, Probe(s.geo, w, nprobe))
    {
      ReachedIsPooled(s, w, nprobe, r);
    }
  }

  ghost predicate IsReached(s: State, w: Vec, nprobe: nat, h: Hit)
    requires WellFormed(s) && s.trained
  {
    h.num in s.dataMap && InReach(s, w, nprobe, s.dataMap[h.num]) && HitOf(s, w, s.dataMap[h.num]) == h
  }

  lemma PooledIsReached(s: State, w: Vec, nprobe: nat, h: Hit)
    requires Coherent(s) && s.trained && nprobe <= s.nCells
    requires CellsOf(s, Probe(s.geo, w, nprobe)) && h in PoolOf(s, w, Probe(s.geo, w, nprobe))
    ensures IsReached(s, w, nprobe, h)
  {
    var c := PoolIsStored(s, w, Probe(s.geo, w, nprobe), h);
    assert Stored(s, c, Entry(h.num, s.dataMap[h.num].embedding));
    ProbedIffFewCloser(s.geo, w, nprobe, c);
  }

  lemma ReachedIsPooled(s: State, w: Vec, nprobe: nat, r: Record)
    requires Coherent(s) && s.trained && nprobe <= s.nCells
    requires CellsOf(s, Probe(s.geo, w, nprobe)) && InReach(s, w, nprobe, r)
    ensures HitOf(s, w, r) in PoolOf(s, w, Probe(s.geo, w, nprobe))
  {
    var n := s.idMap[CStr(r.id)];
    var c := StoredHome(s, n);
    ProbedIffFewCloser(s.geo, w, nprobe, c);
    StoredIsPooled(s, w, Probe(s.geo, w, nprobe), c, Entry(n, r.embedding));
  }

  /** Records and hits tell the same story. */
  lemma BestAreNearest(s: State, w: Vec, k: nat, nprobe: nat, hits: seq<Hit>, pool: set<Hit>, rs: seq<Record>)
    requires WellFormed(s) && s.trained && IsBest(hits, pool, k) && |rs| == |hits|
    requires forall h | h in pool :: IsReached(s, w, nprobe, h)
    requires forall r | InReach(s, w, nprobe, r) :: HitOf(s, w, r) in pool
    requires forall j | 0 <= j < |hits| :: hits[j].num in s.dataMap && rs[j] == s.dataMap[hits[j].num]
    ensures NearestStored(s, w, k, nprobe, rs)
  {
    forall j | 0 <= j < |rs|
      ensures InReach(s, w, nprobe, rs[j]) && HitOf(s, w, rs[j]) == hits[j]
    {
      assert hits[j] in hits && IsReached(s, w, nprobe, hits[j]);
    }
    forall i, j | 0 <= i < j < |rs|
      ensures Ahead(s, w, rs[i], rs[j])
    {
      assert Before(hits[i], hits[j]);
    }
    forall r | InReach(s, w, nprobe, r) && r !in rs
      ensures |rs| == k && forall a | a in rs :: Ahead(s, w, a, r)
    {
      var h := HitOf(s, w, r);
      assert h in pool && IsReached(s, w, nprobe, h) && s.dataMap[h.num] == r;
      assert h !in hits;
      forall a | a in rs
        ensures Ahead(s, w, a, r)
      {
        var j :| 0 <= j < |rs| && rs[j] == a;
        assert hits[j] in hits && Before(hits[j], h);
      }
    }
  }

  /** What a search returns on a hit: record j is the stored record behind label j, and together
      they are the k best stored records of the nprobe cells nearest to the slice searched, each
      once, best first, all of them when there are fewer than k. */
  lemma HitReturnsNearestStored(s: State, q: Vec, w: Vec, k: nat, nprobe: nat, requireAll: bool)
    requires Coherent(s) && s.trained && 1 <= nprobe <= s.nCells && IsHit(s, q, nprobe, requireAll)
    ensures var hits, a := Scan(s, w, k, nprobe), Query(s, q, w, k, nprobe, requireAll);
            && a.Found? && |a.records| == |hits|
            && (forall j | 0 <= j < |hits| :: hits[j].num in s.dataMap && a.records[j] == s.dataMap[hits[j].num])
            && NearestStored(s, w, k, nprobe, a.records)
  {
    var hits, rs := Scan(s, w, k, nprobe), Query(s, q, w, k, nprobe, requireAll).records;
    ScanIsStored(s, w, k, nprobe);
    ScanIsBest(s, w, k, nprobe);
    ReachIsPool(s, w, nprobe);
    assert forall j | 0 <= j < |hits| :: hits[j] in hits;
    BestAreNearest(s, w, k, nprobe, hits, Pool(PoolOf(s, w, Probe(s.geo, w, nprobe))), rs);
  }

  /** In terms of the scores: they never decrease, and nothing in reach that is left out has a
      smaller one than anything returned. */
  lemma ScoresAscend(s: State, w: Vec, k: nat, nprobe: nat, rs: seq<Record>)
    requires WellFormed(s) && s.trained && NearestStored(s, w, k, nprobe, rs)
    ensures forall i, j | 0 <= i < j < |rs| :: s.geo.fine(w, rs[i].embedding) <= s.geo.fine(w, rs[j].embedding)
    ensures forall r, j | InReach(s, w, nprobe, r) && r !in rs && 0 <= j < |rs| ::
              s.geo.fine(w, rs[j].embedding) <= s.geo.fine(w, r.embedding)
  {
    forall i, j | 0 <= i < j < |rs|
      ensures s.geo.fine(w, rs[i].embedding) <= s.geo.fine(w, rs[j].embedding)
    {
      assert Ahead(s, w, rs[i], rs[j]);
    }
    forall r, j | InReach(s, w, nprobe, r) && r !in rs && 0 <= j < |rs|
      ensures s.geo.fine(w, rs[j].embedding) <= s.geo.fine(w, r.embedding)
    {
      assert rs[j] in rs && Ahead(s, w, rs[j], r);
    }
  }

  /** The slots of a hit: the record behind each label, then empty ones. */
  ghost predicate SlotsHold(s: State, hits: seq<Hit>, slots: seq<Record>) {
    && |hits| <= |slots|
    && (forall j | 0 <= j < |hits| :: hits[j].num in s.dataMap && slots[j] == s.dataMap[hits[j].num])
    && (forall j | |hits| <= j < |slots| :: slots[j] == EMPTY_RECORD)
  }

  /** There is only one such list. */
  lemma {:induction false} OneNearestStored(s: State, w: Vec, k: nat, nprobe: nat, a: seq<Record>, b: seq<Record>)
    requires Coherent(s) && s.trained && nprobe <= s.nCells
    requires NearestStored(s, w, k, nprobe, a) && NearestStored(s, w, k, nprobe, b)
    ensures a == b
  {
    if |a| <= |b| {
      SameFront(s, w, k, nprobe, a, b, |a|);
      SameLength(s, w, k, nprobe, a, b);
    } else {
      SameFront(s, w, k, nprobe, b, a, |b|);
      SameLength(s, w, k, nprobe, b, a);
    }
  }

  lemma SameLength(s: State, w: Vec, k: nat, nprobe: nat, a: seq<Record>, b: seq<Record>)
    requires WellFormed(s) && s.trained
    requires NearestStored(s, w, k, nprobe, a) && NearestStored(s, w, k, nprobe, b)
    requires |a| <= |b| && a == b[..|a|]
    ensures a == b
  {
    if |a| < |b| {
      NextIsNew(s, w, k, nprobe, b, |a|);
    }
  }

  lemma NextIsNew(s: State, w: Vec, k: nat, nprobe: nat, rs: seq<Record>, m: nat)
    requires WellFormed(s) && s.trained && m < |rs| && NearestStored(s, w, k, nprobe, rs)
    ensures InReach(s, w, nprobe, rs[m]) && forall j | 0 <= j < m :: rs[..m][j] == rs[j] && rs[j] != rs[m]
  {
    assert rs[m] in rs;
    forall j | 0 <= j < m
      ensures rs[j] != rs[m]
    {
      assert Ahead(s, w, rs[j], rs[m]);
    }
  }

  lemma {:induction false} SameFront(s: State, w: Vec, k: nat, nprobe: nat, a: seq<Record>, b: seq<Record>, n: nat)
    requires WellFormed(s) && s.trained
    requires NearestStored(s, w, k, nprobe, a) && NearestStored(s, w, k, nprobe, b)
    requires n <= |a| && n <= |b|
    ensures a[..n] == b[..n]
  {
    if n > 0 {
      var m := n - 1;
      SameFront(s, w, k, nprobe, a, b, m);
      NotBehind(s, w, k, nprobe, a, b, m);
      NotBehind(s, w, k, nprobe, b, a, m);
      NotBothAhead(s, w, a[m], b[m]);
      assert a[..n] == a[..m] + [a[m]] && b[..n] == b[..m] + [b[m]];
    }
  }

  lemma NotBothAhead(s: State, w: Vec, a: Record, b: Record)
    ensures !(Ahead(s, w, a, b) && Ahead(s, w, b, a))
  {
  }

  /** After equal fronts the next record of one list is not ahead of the other's. */
  lemma NotBehind(s: State, w: Vec, k: nat, nprobe: nat, a: seq<Record>, b: seq<Record>, m: nat)
    requires WellFormed(s) && s.trained && m < |a| && m < |b| && a[..m] == b[..m]
    requires NearestStored(s, w, k, nprobe, a) && NearestStored(s, w, k, nprobe, b)
    ensures InReach(s, w, nprobe, a[m]) && InReach(s, w, nprobe, b[m])
    ensures a[m] == b[m] || Ahead(s, w, b[m], a[m])
  {
    NextIsNew(s, w, k, nprobe, a, m);
    NextIsNew(s, w, k, nprobe, b, m);
    assert b[m] in b;
    if a[m] in b {
      var j :| 0 <= j < |b| && b[j] == a[m];
      assert j >= m by {
        assert forall i | 0 <= i < m :: b[..m][i] == a[..m][i] && b[i] == a[i];
      }
      assert j > m ==> Ahead(s, w, b[m], b[j]);
    }
  }

  /** With a database that holds what was ADDed, those records are the database's own. */
  lemma StoredIsTrue(s: State, truth: Collection, r: Record)
    requires Coherent(s) && Synced(s, truth) && CStr(r.id) in s.idMap
    requires s.idMap[CStr(r.id)] in s.dataMap && s.dataMap[s.idMap[CStr(r.id)]] == r
    ensures r == truth(CStr(r.id))
  {
    var n := s.idMap[CStr(r.id)];
    var c := StoredHome(s, n);
    assert InSnapshot(s, c, Entry(n, r.embedding).num);
    assert Held(s, truth, CStr(r.id));
  }

  /** Record by record: the answer's j-th record is the database's record of the id whose number
      is the j-th label, and no record comes twice. */
  lemma HitReturnsTruth(s: State, truth: Collection, w: Vec, k: nat, nprobe: nat, hits: seq<Hit>, rs: seq<Record>)
    requires Coherent(s) && Synced(s, truth) && s.trained && |rs| == |hits|
    requires NearestStored(s, w, k, nprobe, rs)
    requires forall j | 0 <= j < |hits| :: hits[j].num in s.dataMap && rs[j] == s.dataMap[hits[j].num]
    ensures forall j, id | 0 <= j < |hits| && id in s.idMap && s.idMap[id] == hits[j].num :: rs[j] == truth(id)
    ensures NoRepeats(rs)
  {
    forall j, id | 0 <= j < |hits| && id in s.idMap && s.idMap[id] == hits[j].num
      ensures rs[j] == truth(id)
    {
      var c := StoredHome(s, hits[j].num);
      assert CStr(rs[j].id) == id;
      StoredIsTrue(s, truth, rs[j]);
    }
    RanksDiffer(s, w, k, nprobe, rs);
  }

  lemma RanksDiffer(s: State, w: Vec, k: nat, nprobe: nat, rs: seq<Record>)
    requires WellFormed(s) && s.trained && NearestStored(s, w, k, nprobe, rs)
    ensures NoRepeats(rs)
  {
    forall i, j | 0 <= i < j < |rs|
      ensures rs[i] != rs[j]
    {
      assert Ahead(s, w, rs[i], rs[j]);
    }
  }

  // ---------- a hit answers like the full index ----------

  /** What a hit under require_all says about residency. */
  lemma HitProbesResidents(s: State, q: Vec, nprobe: nat)
    requires Coherent(s) && s.trained && 1 <= nprobe <= s.nCells
    ensures CellsOf(s, Probe(s.geo, q, nprobe))
    ensures IsHit(s, q, nprobe, true) <==> forall i | 0 <= i < nprobe :: Resident(s, Probe(s.geo, q, nprobe)[i])
    ensures IsHit(s, q, nprobe, false) <==> Resident(s, Probe(s.geo, q, nprobe)[0])
    ensures IsHit(s, q, nprobe, true) ==> IsHit(s, q, nprobe, false)
  {
    ProbeInRange(s.geo, q, nprobe);
  }

  /** Two coherent cores over the same registry and database whose snapshots agree on the
      probed cells return the same records, whatever else each has resident. */
  lemma SameSnapshotsSameAnswer(s: State, t: State, truth: Collection, q: Vec, k: nat, nprobe: nat)
    requires Coherent(s) && Synced(s, truth) && Coherent(t) && Synced(t, truth)
    requires SameRegistry(s, t) && s.trained && nprobe <= s.nCells
    requires forall c: nat | c < s.nCells && c in Probe(s.geo, q, nprobe) :: Snapshot(s, c) == Snapshot(t, c)
    ensures Fetchable(s, Scan(s, q, k, nprobe)) && Fetchable(t, Scan(t, q, k, nprobe))
    ensures Fetch(s, Scan(s, q, k, nprobe)) == Fetch(t, Scan(t, q, k, nprobe))
  {
    SameHits(s, t, truth, q, k, nprobe);
    HitsAgree(s, t, truth, q, k, nprobe);
    FetchesAgree(s, t, Scan(s, q, k, nprobe));
  }

  ghost predicate Agree(s: State, t: State, n: nat) {
    n in s.dataMap && n in t.dataMap && s.dataMap[n] == t.dataMap[n]
  }

  lemma FetchesAgree(s: State, t: State, hits: seq<Hit>)
    requires forall h | h in hits :: Agree(s, t, h.num)
    ensures Fetchable(s, hits) && Fetchable(t, hits) && Fetch(s, hits) == Fetch(t, hits)
  {
    assert forall i | 0 <= i < |hits| :: hits[i] in hits;
  }

  lemma HitsAgree(s: State, t: State, truth: Collection, q: Vec, k: nat, nprobe: nat)
    requires Coherent(s) && Synced(s, truth) && Coherent(t) && Synced(t, truth)
    requires SameRegistry(s, t) && s.trained && nprobe <= s.nCells
    requires forall c: nat | c < s.nCells && c in Probe(s.geo, q, nprobe) :: Snapshot(s, c) == Snapshot(t, c)
    ensures forall h | h in Scan(s, q, k, nprobe) :: Agree(s, t, h.num)
  {
    ScanAnswersSnapshot(s, truth, q, k, nprobe);
    forall h | h in Scan(s, q, k, nprobe)
      ensures Agree(s, t, h.num)
    {
      SnapshotRecord(s, t, truth, q, Probe(s.geo, q, nprobe), h);
    }
  }

  lemma SameHits(s: State, t: State, truth: Collection, q: Vec, k: nat, nprobe: nat)
    requires Coherent(s) && Synced(s, truth) && Coherent(t) && Synced(t, truth)
    requires SameRegistry(s, t) && s.trained && nprobe <= s.nCells
    requires forall c: nat | c < s.nCells && c in Probe(s.geo, q, nprobe) :: Snapshot(s, c) == Snapshot(t, c)
    ensures Scan(s, q, k, nprobe) == Scan(t, q, k, nprobe)
  {
    var cells := Probe(s.geo, q, nprobe);
    ScanAnswersSnapshot(s, truth, q, k, nprobe);
    ScanAnswersSnapshot(t, truth, q, k, nprobe);
    SamePool(s, t, truth, q, cells);
    BestIsUnique(Scan(s, q, k, nprobe), Scan(t, q, k, nprobe), SnapshotHits(s, truth, q, cells), k);
  }

  lemma SamePool(s: State, t: State, truth: Collection, q: Vec, cells: seq<nat>)
    requires WellFormed(s) && WellFormed(t) && SameRegistry(s, t)
    requires forall c: nat | c < s.nCells && c in cells :: Snapshot(s, c) == Snapshot(t, c)
    ensures SnapshotHits(s, truth, q, cells) == SnapshotHits(t, truth, q, cells)
  {
  }

  lemma SnapshotRecord(s: State, t: State, truth: Collection, q: Vec, cells: seq<nat>, h: Hit)
    requires WellFormed(s) && WellFormed(t) && SameRegistry(s, t) && SnapshotsHeld(s, truth) && SnapshotsHeld(t, truth)
    requires forall c: nat | c < s.nCells && c in cells :: Snapshot(s, c) == Snapshot(t, c)
    requires h in SnapshotHits(s, truth, q, cells)
    ensures Agree(s, t, h.num)
  {
    var c: nat, id :| c in cells && c < s.nCells && id in Snapshot(s, c) && id in s.idMap &&
      h == Hit(s.geo.fine(q, truth(id).embedding), s.idMap[id]);
    assert Held(s, truth, id);
    assert id in Snapshot(t, c) && Held(t, truth, id);
  }

  function AllCells(n: nat): (r: seq<nat>)
    ensures |r| == n && forall i | 0 <= i < n :: r[i] == i
  {
    seq(n, i => i)
  }

  /** The database's reply to the ids registered in each cell. */
  function Replies(s: State, truth: Collection): nat -> DbReply {
    (c: nat) => if c < |s.idsByCell| then Rows(Records(truth, s.idsByCell[c])) else Refused
  }

  function Records(truth: Collection, ids: seq<Bytes>): (r: seq<Record>)
    ensures |r| == |ids|
  {
    seq(|ids|, i requires 0 <= i < |ids| => truth(ids[i]))
  }

  /** The full index: this core with every cell not yet resident loaded from a database, and how
      that load ends. */
  ghost function FullIndex(s: State, db: nat -> DbReply): Outcome
    requires WellFormed(s)
  {
    LoadCells(s, AllCells(s.nCells), db)
  }

  /** Everything a scan of resident cells reads is the same in the full index. */
  lemma FullIndexKeepsHit(s: State, db: nat -> DbReply, q: Vec, nprobe: nat)
    requires Coherent(s) && DbConforms(s, db) && s.trained && 1 <= nprobe <= s.nCells && IsHit(s, q, nprobe, true)
    ensures CellsOf(s, Probe(s.geo, q, nprobe))
    ensures var t := FullIndex(s, db).state;
            && Coherent(t) && SameRegistry(s, t) && IsHit(t, q, nprobe, true)
            && (forall i | 0 <= i < nprobe ::
                  s.lists[Probe(s.geo, q, nprobe)[i]] == t.lists[Probe(s.geo, q, nprobe)[i]])
            && (forall n | n in s.dataMap :: Agree(s, t, n))
  {
    var t := FullIndex(s, db).state;
    LoadCellsKeeps(s, AllCells(s.nCells), db);
    LoadCellsKeepsRecords(s, AllCells(s.nCells), db);
    HitProbesResidents(s, q, nprobe);
    HitProbesResidents(t, q, nprobe);
    var cells := Probe(s.geo, q, nprobe);
    forall i | 0 <= i < nprobe
      ensures s.lists[cells[i]] == t.lists[cells[i]] && Resident(t, cells[i])
    {
      assert Resident(s, cells[i]);
      assert SameCell(s, t, cells[i]);
    }
  }

  lemma {:induction false} SameListsSamePool(s: State, t: State, q: Vec, cells: seq<nat>)
    requires WellFormed(s) && WellFormed(t) && CellsOf(s, cells) && t.nCells == s.nCells && t.geo == s.geo
    requires forall i | 0 <= i < |cells| :: s.lists[cells[i]] == t.lists[cells[i]]
    ensures PoolOf(s, q, cells) == PoolOf(t, q, cells)
    decreases |cells|
  {
    if cells != [] {
      assert forall i | 0 <= i < |cells[1..]| :: cells[1..][i] == cells[i + 1];
      SameListsSamePool(s, t, q, cells[1..]);
    }
  }

  /** The cache's promise: a require_all hit returns, record for record, what this core would
      return with every other cell loaded too, whatever the database answers for those, in
      whatever order, and whichever of its embeddings have changed since they were added. */
  lemma HitAnswersLikeFullIndex(s: State, db: nat -> DbReply, q: Vec, k: nat, nprobe: nat)
    requires Coherent(s) && DbConforms(s, db) && s.trained && 1 <= nprobe <= s.nCells
    requires IsHit(s, q, nprobe, true)
    ensures var r := FullIndex(s, db);
            && Coherent(r.state) && SameRegistry(s, r.state)
            && (r.ending == Done ==> forall c: nat | c < s.nCells :: Resident(r.state, c))
            && Query(s, q, q, k, nprobe, true) == Query(r.state, q, q, k, nprobe, true)
            && Query(s, q, q, k, nprobe, true).Found?
  {
    var r := FullIndex(s, db);
    FullIndexKeepsHit(s, db, q, nprobe);
    ProbeInRange(s.geo, q, nprobe);
    SameListsSamePool(s, r.state, q, Probe(s.geo, q, nprobe));
    ScanIsStored(s, q, k, nprobe);
    FetchesAgree(s, r.state, Scan(s, q, k, nprobe));
    if r.ending == Done {
      DoneMeansFull(s, db);
    }
  }

  lemma DoneMeansFull(s: State, db: nat -> DbReply)
    requires Coherent(s) && DbConforms(s, db) && FullIndex(s, db).ending == Done
    ensures forall c: nat | c < s.nCells :: Resident(FullIndex(s, db).state, c)
  {
    LoadCellsKeeps(s, AllCells(s.nCells), db);
    forall c: nat | c < s.nCells
      ensures Resident(FullIndex(s, db).state, c)
    {
      assert Resident(FullIndex(s, db).state, AllCells(s.nCells)[c]);
    }
  }

  lemma RepliesConform(s: State, truth: Collection)
    requires WellFormed(s) && Routed(s, truth)
    ensures DbConforms(s, Replies(s, truth)) && DbFaithful(Replies(s, truth), truth)
  {
    var db := Replies(s, truth);
    forall c: nat | c < s.nCells
      ensures Conforms(s.idsByCell[c], db(c).rows)
    {
      assert IdsOf(db(c).rows) == s.idsByCell[c] by {
        assert forall i | 0 <= i < |s.idsByCell[c]| :: s.idsByCell[c][i] in s.idsByCell[c];
      }
    }
    forall c: nat, r | db(c).Rows? && r in db(c).rows
      ensures r == truth(CStr(r.id))
    {
      var i :| 0 <= i < |db(c).rows| && db(c).rows[i] == r;
      assert s.idsByCell[c][i] in s.idsByCell[c];
    }
  }

  /** With a faithful database and ids registered once, the full index completes, holds every
      registered record, and leaves resident cells alone. */
  lemma FullIndexIsFull(s: State, truth: Collection)
    requires Coherent(s) && Distinct(s) && Synced(s, truth)
    ensures var r := FullIndex(s, Replies(s, truth));
            && r.ending == Done
            && Coherent(r.state) && Synced(r.state, truth) && SameRegistry(s, r.state)
            && (forall c: nat | c < s.nCells :: Resident(r.state, c) && (Resident(s, c) ==> SameCell(s, r.state, c)))
  {
    var db := Replies(s, truth);
    var cells := AllCells(s.nCells);
    RepliesConform(s, truth);
    LoadCellsKeeps(s, cells, db);
    LoadCellsKeepsSync(s, cells, db, truth);
    NeverRefused(s, cells, db);
    DoneMeansFull(s, db);
  }

  lemma {:induction false} NeverRefused(s: State, cells: seq<nat>, db: nat -> DbReply)
    requires Coherent(s) && Distinct(s) && CellsOf(s, cells) && DbConforms(s, db)
    requires forall i | 0 <= i < |cells| :: db(cells[i]).Rows?
    ensures LoadCells(s, cells, db).ending == Done
    decreases |cells|
  {
    if cells != [] {
      var c := cells[0];
      assert db(cells[0]).Rows?;
      assert forall i | 0 <= i < |cells[1..]| :: db(cells[1..][i]).Rows? by {
        assert forall i | 0 <= i < |cells[1..]| :: cells[1..][i] == cells[i + 1];
      }
      if s.residence[c] > -1 {
        NeverRefused(s, cells[1..], db);
      } else {
        LoadNeverAborts(s, c, db(c).rows);
        LoadStep(s, c, db(c).rows);
        NeverRefused(LoadCell(s, c, db(c).rows), cells[1..], db);
      }
    }
  }

  // ---------- the slice handed to the index ----------

  /** Query i is routed by row i of xq but searched from offset i. The two are the same slice of
      every array exactly for the first query or for one-dimensional vectors. */
  lemma SearchedSliceIsTheRow(d: nat, i: nat)
    requires d >= 1
    ensures (forall x: Vec | i * d + d <= |x| :: Window(x, d, i) == Row(x, d, i)) <==> i == 0 || d == 1
  {
    if i == 0 || d == 1 {
      assert i * d == i;
    } else {
      var x := SlicesDiffer(d, i);
    }
  }

  lemma SlicesDiffer(d: nat, i: nat) returns (x: Vec)
    requires d >= 2 && i >= 1
    ensures |x| == (i + 1) * d == i * d + d && i + d <= |x| && Window(x, d, i) != Row(x, d, i)
    ensures forall p | 0 <= p < |x| :: x[p] == if p == i * d then ONE else ZERO
  {
    x := seq((i + 1) * d, p => if p == i * d then ONE else ZERO);
    RowFits(x, d, i, i + 1);
    WindowFits(x, d, i, i + 1);
    assert i * d > i by {
      assert i * (d - 1) >= 1;
      assert i * d == i * (d - 1) + i;
    }
    assert Row(x, d, i)[0] == x[i * d] == ONE;
    assert Window(x, d, i)[0] == x[i] == ZERO;
  }

  /** 0.0 and 1.0 in single precision, low-order byte first. */
  const ZERO := Float(0, 0, 0, 0)
  const ONE := Float(0, 0, 128, 63)

  /** For the first query of a call, and for every query when d is 1, the answer as written is
      the full index's answer to that query. */
  lemma FirstQueryAnswersLikeFullIndex(s: State, db: nat -> DbReply, xq: Vec, n: nat, i: nat, k: nat, nprobe: nat)
    requires Coherent(s) && DbConforms(s, db) && s.trained && 1 <= nprobe <= s.nCells
    requires s.d >= 1 && n * s.d <= |xq| && i < n && (i == 0 || s.d == 1)
    ensures var q := Row(xq, s.d, i);
            IsHit(s, q, nprobe, true) ==>
              && Coherent(FullIndex(s, db).state) && SameRegistry(s, FullIndex(s, db).state)
              && Query(s, q, Window(xq, s.d, i), k, nprobe, true)
                 == Query(FullIndex(s, db).state, q, q, k, nprobe, true)
  {
    RowFits(xq, s.d, i, n);
    WindowFits(xq, s.d, i, n);
    SearchedSliceIsTheRow(s.d, i);
    var q := Row(xq, s.d, i);
    if IsHit(s, q, nprobe, true) {
      HitAnswersLikeFullIndex(s, db, q, k, nprobe);
    }
  }
}

/** The cache core as values: the five structures Core keeps in step and what each
    operation turns them into. The class in Core.dfy is proved against these functions. */
module CoreState {
  import opened Bytes
  import opened Ranking

  /** What FAISS knows: where the centroids are, the distance its quantizer ranks them by,
      and the score its inverted lists rank stored vectors by (exact for a flat index,
      approximate for product quantization; either way a function of query and vector). */
  datatype Geometry = Geometry(centroids: seq<Vec>, coarse: (Vec, Vec) -> int, fine: (Vec, Vec) -> int)

  /** One slot of an inverted list. */
  datatype Entry = Entry(num: nat, vec: Vec)

  datatype State = State(
    d: nat,
    nCells: nat,
    geo: Geometry,
    trained: bool,
    idsByCell: seq<seq<Bytes>>,
    idMap: map<Bytes, nat>,
    dataMap: map<nat, Record>,
    lists: seq<seq<Entry>>,
    residence: seq<int>,
    nextId: nat)

  /** What the database answers for one cell: an HTTP error, or records. */
  datatype DbReply = Refused | Rows(rows: seq<Record>)

  /** How an operation ends. Aborted stands for a failed assert, which ends the process. */
  datatype Ending = Done | DbFailed | Aborted

  datatype Outcome = Outcome(state: State, ending: Ending)

  // ---------- the quantizer ----------

  function CellHits(geo: Geometry, v: Vec): (r: seq<Hit>)
    ensures |r| == |geo.centroids|
  {
    seq(|geo.centroids|, c requires 0 <= c < |geo.centroids| => Hit(geo.coarse(v, geo.centroids[c]), c))
  }

  /** All cells, nearest first. */
  function Rank(geo: Geometry, v: Vec): (r: seq<nat>)
    ensures |r| == |geo.centroids|
  {
    var hits := Sort(CellHits(geo, v));
    seq(|hits|, i requires 0 <= i < |hits| => hits[i].num)
  }

  /** The m nearest cells, nearest first. */
  function Probe(geo: Geometry, v: Vec, m: nat): (r: seq<nat>)
    requires m <= |geo.centroids|
    ensures |r| == m
  {
    Rank(geo, v)[..m]
  }

  function Nearest(geo: Geometry, v: Vec): nat {
    if geo.centroids == [] then 0 else Rank(geo, v)[0]
  }

  /** One quantizer search for all rows: the nearest cell of each. */
  function NearestOf(geo: Geometry, rows: seq<Vec>): (r: seq<nat>)
    ensures |r| == |rows| && forall i | 0 <= i < |rows| :: r[i] == Nearest(geo, rows[i])
  {
    seq(|rows|, i requires 0 <= i < |rows| => Nearest(geo, rows[i]))
  }

  ghost predicate WellFormed(s: State) {
    && |s.idsByCell| == |s.lists| == |s.residence| == s.nCells
    && |s.geo.centroids| == if s.trained then s.nCells else 0
  }

  /** The d floats that start at an offset; meaningless past the end of the array. */
  function Window(x: Vec, d: nat, from: nat): (r: Vec)
    ensures from + d <= |x| ==> |r| == d && forall p | 0 <= p < d :: r[p] == x[from + p]
  {
    if from + d <= |x| then x[from..from + d] else []
  }

  /** The i-th vector of a flattened array of d-dimensional vectors. */
  function Row(x: Vec, d: nat, i: nat): Vec {
    Window(x, d, i * d)
  }

  /** The n vectors of a flattened array. */
  function RowsOf(x: Vec, d: nat, n: nat): (r: seq<Vec>)
    ensures |r| == n && forall i | 0 <= i < n :: r[i] == Row(x, d, i)
  {
    seq(n, i requires 0 <= i < n => Row(x, d, i))
  }

  /** Row i is floats i * d to i * d + d. */
  lemma RowIs(x: Vec, d: nat, i: nat)
    requires 0 <= i * d && i * d + d <= |x|
    ensures Row(x, d, i) == x[i * d..i * d + d]
    ensures |Row(x, d, i)| == d && forall p | 0 <= p < d :: Row(x, d, i)[p] == x[i * d + p]
  {
  }

  lemma RowFits<T>(x: seq<T>, d: nat, i: nat, n: nat)
    requires i < n && n * d <= |x|
    ensures (i + 1) * d == i * d + d <= |x|
  {
    Times(i, 1, d);
    Times(i + 1, n - (i + 1), d);
  }

  lemma WindowFits(x: Vec, d: nat, i: nat, n: nat)
    requires i < n && n * d <= |x| && d >= 1
    ensures i + d <= |x|
  {
    RowFits(x, d, i, n);
    assert i * (d - 1) >= 0;
    assert i * d == i * (d - 1) + i;
  }

  /** The two slices of query i: row i, and the floats from offset i on. */
  lemma SlicesOfQuery(x: Vec, d: nat, i: nat, n: nat)
    requires i < n && n * d <= |x| && d >= 1
    ensures i * d >= 0 && i * d + d <= |x| && i + d <= |x|
    ensures Row(x, d, i) == x[i * d..i * d + d] && Window(x, d, i) == x[i..i + d]
  {
    RowFits(x, d, i, n);
    WindowFits(x, d, i, n);
    RowIs(x, d, i);
  }

  // ---------- construction, training ----------

  function Copies<T>(n: nat, x: T): (r: seq<T>)
    ensures |r| == n && forall i | 0 <= i < n :: r[i] == x
  {
    seq(n, _ => x)
  }

  function Blank(d: nat, nCells: nat, coarse: (Vec, Vec) -> int, fine: (Vec, Vec) -> int): State {
    State(d, nCells, Geometry([], coarse, fine), false,
          Copies(nCells, []), map[], map[], Copies(nCells, []), Copies(nCells, -1), 0)
  }

  function Train(s: State, learned: seq<Vec>): State {
    if s.trained then s else s.(geo := s.geo.(centroids := learned), trained := true)
  }

  // ---------- registration ----------

  const ID_SCAN: nat := 100

  /** isNullTerminated(buffer, 100) on the buffer that holds an id and its terminator. */
  predicate Terminated(id: Bytes) {
    |CStr(id)| < ID_SCAN
  }

  function AddOne(s: State, id: Bytes, v: Vec): State
    requires WellFormed(s) && Nearest(s.geo, v) < s.nCells
  {
    var c := Nearest(s.geo, v);
    var key := CStr(id);
    s.(idsByCell := s.idsByCell[c := s.idsByCell[c] + [key]],
       idMap := if key in s.idMap then s.idMap else s.idMap[key := s.nextId],
       nextId := s.nextId + 1)
  }

  /** Registers ids with their vectors, in order. */
  function AddRows(s: State, ids: seq<Bytes>, vs: seq<Vec>): (r: State)
    requires WellFormed(s) && s.trained && s.nCells > 0 && |ids| == |vs|
    ensures WellFormed(r) && r.trained && r.nCells == s.nCells && r.d == s.d && r.geo == s.geo
    decreases |ids|
  {
    if ids == [] then s
    else
      NearestInRange(s.geo, vs[0]);
      AddRows(AddOne(s, ids[0], vs[0]), ids[1..], vs[1..])
  }

  // ---------- loading ----------

  /** The records whose embedding the quantizer assigns to cell c. */
  function Kept(geo: Geometry, c: nat, rows: seq<Record>): (r: seq<Record>)
    ensures forall x :: x in r <==> x in rows && Nearest(geo, x.embedding) == c
    ensures |r| <= |rows|
  {
    if rows == [] then []
    else
      var last := rows[|rows| - 1];
      assert rows == rows[..|rows| - 1] + [last];
      Kept(geo, c, rows[..|rows| - 1]) + if Nearest(geo, last.embedding) == c then [last] else []
  }

  predicate Known(idMap: map<Bytes, nat>, recs: seq<Record>) {
    forall r | r in recs :: CStr(r.id) in idMap
  }

  function Numbers(idMap: map<Bytes, nat>, recs: seq<Record>): (r: seq<nat>)
    requires Known(idMap, recs)
    ensures |r| == |recs|
  {
    seq(|recs|, i requires 0 <= i < |recs| => idMap[CStr(recs[i].id)])
  }

  function Entries(idMap: map<Bytes, nat>, recs: seq<Record>): (r: seq<Entry>)
    requires Known(idMap, recs)
    ensures |r| == |recs|
  {
    seq(|recs|, i requires 0 <= i < |recs| => Entry(idMap[CStr(recs[i].id)], recs[i].embedding))
  }

  /** The records by number. */
  ghost function Keyed(idMap: map<Bytes, nat>, recs: seq<Record>): (r: map<nat, Record>)
    requires Known(idMap, recs) && NoRepeats(Numbers(idMap, recs))
    ensures forall i | 0 <= i < |recs| :: idMap[CStr(recs[i].id)] in r && r[idMap[CStr(recs[i].id)]] == recs[i]
    ensures forall n | n in r :: n in Numbers(idMap, recs)
  {
    var nums := Numbers(idMap, recs);
    assert forall i | 0 <= i < |recs| :: nums[i] == idMap[CStr(recs[i].id)];
    map i | 0 <= i < |recs| :: nums[i] := recs[i]
  }

  /** No assert in loadCell fails on this reply: a record per requested id, every kept id
      registered, and no kept number stored already or stored twice. */
  ghost predicate Loadable(s: State, c: nat, rows: seq<Record>)
    requires WellFormed(s) && c < s.nCells
  {
    var kept := Kept(s.geo, c, rows);
    && |rows| == |s.idsByCell[c]|
    && Known(s.idMap, kept)
    && NoRepeats(Numbers(s.idMap, kept))
    && (forall n | n in Numbers(s.idMap, kept) :: n !in s.dataMap)
  }

  ghost function LoadCell(s: State, c: nat, rows: seq<Record>): (r: State)
    requires WellFormed(s) && c < s.nCells && Loadable(s, c, rows)
    ensures WellFormed(r)
  {
    var kept := Kept(s.geo, c, rows);
    s.(dataMap := s.dataMap + Keyed(s.idMap, kept),
       lists := s.lists[c := s.lists[c] + Entries(s.idMap, kept)],
       residence := s.residence[c := |s.idsByCell[c]|])
  }

  predicate CellsOf(s: State, cells: seq<nat>) {
    forall i | 0 <= i < |cells| :: cells[i] < s.nCells
  }

  /** Loads the listed cells in order, skipping residents, until the database refuses one. */
  ghost function LoadCells(s: State, cells: seq<nat>, db: nat -> DbReply): (r: Outcome)
    requires WellFormed(s) && CellsOf(s, cells)
    ensures WellFormed(r.state) && r.state.nCells == s.nCells && r.state.trained == s.trained
    decreases |cells|
  {
    if cells == [] then Outcome(s, Done)
    else
      var c := cells[0];
      if s.residence[c] > -1 then LoadCells(s, cells[1..], db)
      else match db(c)
        case Refused => Outcome(s, DbFailed)
        case Rows(rows) =>
          if Loadable(s, c, rows) then LoadCells(LoadCell(s, c, rows), cells[1..], db)
          else Outcome(s, Aborted)
  }

  // ---------- eviction ----------

  function StoredNums(list: seq<Entry>): set<nat> {
    set e | e in list :: e.num
  }

  function EvictCell(s: State, c: nat): (r: State)
    requires WellFormed(s) && c < s.nCells
    ensures WellFormed(r)
  {
    s.(dataMap := s.dataMap - StoredNums(s.lists[c]),
       lists := s.lists[c := []],
       residence := s.residence[c := -1])
  }

  ghost function EvictCells(s: State, cells: seq<nat>): (r: State)
    requires WellFormed(s) && CellsOf(s, cells)
    ensures WellFormed(r) && r.nCells == s.nCells && r.trained == s.trained
    decreases |cells|
  {
    if cells == [] then s
    else if s.residence[cells[0]] < 0 then EvictCells(s, cells[1..])
    else EvictCells(EvictCell(s, cells[0]), cells[1..])
  }

  // ---------- searching ----------

  function ListHits(geo: Geometry, q: Vec, list: seq<Entry>): (r: seq<Hit>)
    ensures |r| == |list|
  {
    seq(|list|, i requires 0 <= i < |list| => Hit(geo.fine(q, list[i].vec), list[i].num))
  }

  /** Everything stored in the listed cells, scored against q. */
  function PoolOf(s: State, q: Vec, cells: seq<nat>): seq<Hit>
    requires WellFormed(s) && CellsOf(s, cells)
  {
    if cells == [] then []
    else ListHits(s.geo, q, s.lists[cells[0]]) + PoolOf(s, q, cells[1..])
  }

  /** What the index returns for one query, before the padding with -1. */
  function Scan(s: State, q: Vec, k: nat, nprobe: nat): (r: seq<Hit>)
    requires WellFormed(s) && s.trained && nprobe <= s.nCells
    ensures |r| <= k
  {
    ProbeInRange(s.geo, q, nprobe);
    Best(PoolOf(s, q, Probe(s.geo, q, nprobe)), k)
  }

  ghost predicate IsHit(s: State, q: Vec, nprobe: nat, requireAll: bool)
    requires WellFormed(s) && s.trained && 1 <= nprobe <= s.nCells
  {
    ProbeInRange(s.geo, q, nprobe);
    var cells := Probe(s.geo, q, nprobe);
    && s.residence[cells[0]] > -1
    && (requireAll ==> forall j | 1 <= j < nprobe :: s.residence[cells[j]] != -1)
  }

  // ---------- the ranking is a permutation ----------

  /** Centroid x is nearer to v than centroid y is; ties go to the smaller number. */
  predicate Closer(geo: Geometry, v: Vec, x: nat, y: nat)
    requires x < |geo.centroids| && y < |geo.centroids|
  {
    || geo.coarse(v, geo.centroids[x]) < geo.coarse(v, geo.centroids[y])
    || (geo.coarse(v, geo.centroids[x]) == geo.coarse(v, geo.centroids[y]) && x < y)
  }

  lemma RankIsPermutation(geo: Geometry, v: Vec)
    ensures NoRepeats(Rank(geo, v))
    ensures forall c: nat :: c in Rank(geo, v) <==> c < |geo.centroids|
    ensures forall i, j | 0 <= i < j < |geo.centroids| ::
      && var r := Rank(geo, v);
      && r[i] < |geo.centroids| && r[j] < |geo.centroids|
      && Closer(geo, v, r[i], r[j])
  {
    var hits := CellHits(geo, v);
    var s := Sort(hits);
    SortAscends(hits);
    SortedHitsNameCells(hits, s);
    forall c: nat | c < |hits|
      ensures c in Rank(geo, v)
    {
      assert hits[c] in s;
      var i :| 0 <= i < |s| && s[i] == hits[c];
      assert Rank(geo, v)[i] == c;
    }
    forall i, j | 0 <= i < j < |s|
      ensures Rank(geo, v)[i] != Rank(geo, v)[j]
    {
      assert Before(s[i], s[j]);
    }
  }

  /** A rearrangement of the cells' hits: each is the hit of the cell it names, none is lost. */
  lemma SortedHitsNameCells(hits: seq<Hit>, s: seq<Hit>)
    requires multiset(s) == multiset(hits) && forall c | 0 <= c < |hits| :: hits[c].num == c
    ensures forall i | 0 <= i < |s| :: s[i].num < |hits| && hits[s[i].num] == s[i]
    ensures forall c | 0 <= c < |hits| :: hits[c] in s
  {
    forall i | 0 <= i < |s|
      ensures s[i].num < |hits| && hits[s[i].num] == s[i]
    {
      assert s[i] in multiset(s);
      assert s[i] in hits;
    }
    forall c | 0 <= c < |hits|
      ensures hits[c] in s
    {
      assert hits[c] in multiset(hits);
    }
  }

  lemma NearestInRange(geo: Geometry, v: Vec)
    requires geo.centroids != []
    ensures Nearest(geo, v) < |geo.centroids|
  {
    RankIsPermutation(geo, v);
    assert Rank(geo, v)[0] in Rank(geo, v);
  }

  lemma ProbeInRange(geo: Geometry, v: Vec, m: nat)
    requires m <= |geo.centroids|
    ensures NoRepeats(Probe(geo, v, m))
    ensures forall i | 0 <= i < m :: Probe(geo, v, m)[i] < |geo.centroids|
  {
    RankIsPermutation(geo, v);
    forall i | 0 <= i < m
      ensures Probe(geo, v, m)[i] < |geo.centroids|
    {
      assert Rank(geo, v)[i] in Rank(geo, v);
    }
  }

  /** The probed cells are the m nearest: every cell taken is nearer than every cell left out. */
  lemma ProbeIsNearest(geo: Geometry, v: Vec, m: nat, taken: nat, left: nat)
    requires m <= |geo.centroids| && left < |geo.centroids|
    requires taken in Probe(geo, v, m) && left !in Probe(geo, v, m)
    ensures taken < |geo.centroids|
    ensures Closer(geo, v, taken, left)
    ensures geo.coarse(v, geo.centroids[taken]) <= geo.coarse(v, geo.centroids[left])
  {
    RankIsPermutation(geo, v);
    var r := Rank(geo, v);
    assert r == r[..m] + r[m..];
    assert left in r;
    var i :| 0 <= i < m && r[i] == taken;
    var j :| m <= j < |r| && r[j] == left;
  }

  /** The nearest cell: no centroid is at a smaller distance. */
  lemma NearestIsNearest(geo: Geometry, v: Vec)
    requires geo.centroids != []
    ensures Nearest(geo, v) < |geo.centroids|
    ensures forall x: nat | x < |geo.centroids| ::
      && geo.coarse(v, geo.centroids[Nearest(geo, v)]) <= geo.coarse(v, geo.centroids[x])
      && (x != Nearest(geo, v) ==> Closer(geo, v, Nearest(geo, v), x))
  {
    RankIsPermutation(geo, v);
    NearestInRange(geo, v);
    var r := Rank(geo, v);
    var n := Nearest(geo, v);
    assert n == r[0];
    forall x: nat | x < |geo.centroids|
      ensures geo.coarse(v, geo.centroids[n]) <= geo.coarse(v, geo.centroids[x])
      ensures x != n ==> Closer(geo, v, n, x)
    {
      assert x in r;
      var j :| 0 <= j < |r| && r[j] == x;
      if j > 0 {
        assert Closer(geo, v, r[0], r[j]);
      }
    }
  }

  /** The cells whose centroids are nearer to v than that of cell c. */
  function CloserCells(geo: Geometry, v: Vec, c: nat): set<nat>
    requires c < |geo.centroids|
  {
    set x: nat | x < |geo.centroids| && Closer(geo, v, x, c)
  }

  /** Being probed is a matter of how many centroids are nearer. */
  lemma ProbedIffFewCloser(geo: Geometry, v: Vec, m: nat, c: nat)
    requires m <= |geo.centroids| && c < |geo.centroids|
    ensures c in Probe(geo, v, m) <==> |CloserCells(geo, v, c)| < m
  {
    RankIsPermutation(geo, v);
    var r := Rank(geo, v);
    assert c in r;
    var p :| 0 <= p < |r| && r[p] == c;
    CloserAreBefore(geo, v, c, p);
    SetOfDistinct(r[..p]);
    if p < m {
      assert Probe(geo, v, m)[p] == c;
    } else {
      assert forall i | 0 <= i < m :: Probe(geo, v, m)[i] == r[i] && r[i] != r[p];
    }
  }

  lemma CloserAreBefore(geo: Geometry, v: Vec, c: nat, p: nat)
    requires c < |geo.centroids| && p < |geo.centroids| && Rank(geo, v)[p] == c
    ensures CloserCells(geo, v, c) == Members(Rank(geo, v)[..p])
  {
    RankIsPermutation(geo, v);
    var r := Rank(geo, v);
    assert forall x | x in r[..p] :: x in r;
    forall x: nat | x < |geo.centroids|
      ensures x in CloserCells(geo, v, c) <==> x in r[..p]
    {
      assert x in r;
      var j :| 0 <= j < |r| && r[j] == x;
      if j < p {
        assert r[..p][j] == x;
      } else {
        assert forall i | 0 <= i < p :: r[..p][i] == r[i] && r[i] != r[j];
      }
    }
  }

  function Members(s: seq<nat>): (r: set<nat>)
    ensures forall x :: x in r <==> x in s
  {
    set x | x in s
  }

  lemma {:induction false} SetOfDistinct(s: seq<nat>)
    requires NoRepeats(s)
    ensures |Members(s)| == |s|
  {
    if s == [] {
      assert Members(s) == {};
    } else {
      var n := |s| - 1;
      SetOfDistinct(s[..n]);
      assert s == s[..n] + [s[n]];
      assert Members(s) == Members(s[..n]) + {s[n]};
      assert forall i | 0 <= i < n :: s[..n][i] == s[i] && s[i] != s[n];
    }
  }
}

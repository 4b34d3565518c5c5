/** Runs from boot that end where the documentation is not met: a search answered with another
    vector's record, and a hit that misses a registered vector. Commands and ids are fixed; the
    vectors, their dimension, the metrics, the centroids and their number are arbitrary. Every
    LOAD and SEARCH asks for all cells. */
module Scenarios {
  import opened Bytes
  import opened Ranking
  import opened Commands
  import opened CoreState
  import opened CoreInvariants
  import opened CoreLoads
  import opened CoreSync
  import opened CoreSearch
  import opened Server

  // ---------- putting runs together ----------

  /** The run is legal and ends in this server. */
  ghost predicate Reaches(g: Regime, es: seq<Event>, sv: Server) {
    Legal(g, Boot(), es) && Run(g, Boot(), es) == sv
  }

  lemma {:induction false} RunAppend(g: Regime, sv: Server, a: seq<Event>, b: seq<Event>)
    requires Legal(g, sv, a) && Legal(g, Run(g, sv, a), b)
    ensures Legal(g, sv, a + b) && Run(g, sv, a + b) == Run(g, Run(g, sv, a), b)
    decreases |a|
  {
    if a == [] {
      assert a + b == b;
    } else {
      assert (a + b)[0] == a[0] && (a + b)[1..] == a[1..] + b;
      RunAppend(g, Step(sv, a[0]), a[1..], b);
    }
  }

  /** What every reachable core is, in a faithful regime with new ids. */
  lemma ReachedIsSound(truth: Collection, es: seq<Event>, s: State)
    requires Reaches(Regime(true, Some(truth)), es, Idle(READY, Some(s), 1))
    ensures Coherent(s) && Distinct(s) && Synced(s, truth) && s.trained
  {
    ReachableServersAreSound(Regime(true, Some(truth)), es);
  }

  lemma ReachedIsResidency(truth: Collection, es: seq<Event>, s: State)
    requires Reaches(Regime(true, Some(truth)), es, Idle(READY, Some(s), 1))
    ensures WellFormed(s) && Residency(s)
  {
    ReachedIsSound(truth, es, s);
  }

  /** One session's command, accepted and executed with nothing in between. */
  function Ask(req: Request): seq<Event> {
    [Accept(0, WordOf(RequestedCommand(req))), Execute(0, req)]
  }

  /** Up, with no command accepted and not executed. */
  function Idle(status: Status, core: Option<State>, inits: nat): Server {
    Server(status, core, map[], inits, Up)
  }

  lemma AskRuns(g: Regime, es: seq<Event>, status: Status, core: Option<State>, inits: nat, req: Request)
    requires Reaches(g, es, Idle(status, core, inits)) && Allowed(status, RequestedCommand(req))
    requires core.Some? ==> WellFormed(core.value) && Owed(core.value, req) && Admits(g, core.value, req)
    requires Executed(status, core, req).health == Up
    ensures var x := Executed(status, core, req);
            Reaches(g, es + Ask(req), Idle(x.status, x.core, if req.InitializeReq? then inits + 1 else inits))
  {
    var sv := Idle(status, core, inits);
    var word := WordOf(RequestedCommand(req));
    OneAnswer(status, word, Some(RequestedCommand(req)));
    var u := Step(sv, Accept(0, word));
    var v := Step(u, Execute(0, req));
    assert v.pending == map[];
    assert Ask(req)[1..] == [Execute(0, req)] && Ask(req)[1..][1..] == [];
    assert Legal(g, v, []) && Legal(g, u, Ask(req)[1..]);
    assert Run(g, u, Ask(req)[1..]) == v;
    RunAppend(g, Boot(), es, Ask(req));
  }

  // ---------- a trained core and its steps ----------

  function Trained(d: nat, coarse: (Vec, Vec) -> int, fine: (Vec, Vec) -> int, centers: seq<Vec>): State {
    Train(Blank(d, |centers|, coarse, fine), centers)
  }

  function Setup(d: nat, coarse: (Vec, Vec) -> int, fine: (Vec, Vec) -> int, centers: seq<Vec>): seq<Event> {
    Ask(InitializeReq(d, |centers|, coarse, fine)) + Ask(TrainReq(centers))
  }

  lemma SetupRuns(g: Regime, d: nat, coarse: (Vec, Vec) -> int, fine: (Vec, Vec) -> int, centers: seq<Vec>)
    ensures var s := Trained(d, coarse, fine, centers);
            && Reaches(g, Setup(d, coarse, fine, centers), Idle(READY, Some(s), 1))
            && WellFormed(s) && Holding(s, d, fine, |centers|, map[])
            && forall c: nat | c < s.nCells :: !Resident(s, c)
  {
    var init := InitializeReq(d, |centers|, coarse, fine);
    assert Reaches(g, [], Boot());
    AskRuns(g, [], UNINITIALIZED, None, 0, init);
    assert [] + Ask(init) == Ask(init);
    AskRuns(g, Ask(init), INITIALIZED, Some(Blank(d, |centers|, coarse, fine)), 1, TrainReq(centers));
  }

  /** A trained core and the ids it knows. */
  ghost predicate Holding(s: State, d: nat, fine: (Vec, Vec) -> int, nCells: nat, idMap: map<Bytes, nat>) {
    && s.d == d && s.nCells == nCells && s.trained && s.geo.fine == fine && |s.geo.centroids| == nCells
    && s.idMap == idMap && s.nextId == |idMap|
  }

  /** Every cell is resident with all the ids it has. */
  ghost predicate AllLoaded(s: State)
    requires WellFormed(s)
  {
    forall c: nat | c < s.nCells :: s.residence[c] == |s.idsByCell[c]|
  }

  /** An ADD of one new id, by whoever holds the truth. */
  lemma AddRuns(es: seq<Event>, s: State, d: nat, fine: (Vec, Vec) -> int, nCells: nat, idMap: map<Bytes, nat>,
                id: Bytes, v: Vec, truth: Collection)
    returns (t: State)
    requires Reaches(Regime(true, Some(truth)), es, Idle(READY, Some(s), 1))
    requires WellFormed(s) && Holding(s, d, fine, nCells, idMap) && nCells >= 1
    requires |v| == d && CStr(id) == id && |id| < ID_SCAN && id !in idMap
    requires truth(id).embedding == v && CStr(truth(id).id) == id
    ensures Reaches(Regime(true, Some(truth)), es + Ask(AddReq([id], v)), Idle(READY, Some(t), 1))
    ensures Nearest(s.geo, v) < s.nCells && t == AddOne(s, id, v)
    ensures WellFormed(t) && Holding(t, d, fine, nCells, idMap[id := |idMap|])
  {
    NearestInRange(s.geo, v);
    t := AddOne(s, id, v);
    AddExecutes(s, id, v, truth);
    AskRuns(Regime(true, Some(truth)), es, READY, Some(s), 1, AddReq([id], v));
  }

  lemma AddExecutes(s: State, id: Bytes, v: Vec, truth: Collection)
    requires WellFormed(s) && s.trained && s.nCells >= 1 && Nearest(s.geo, v) < s.nCells
    requires |v| == s.d && CStr(id) == id && |id| < ID_SCAN && id !in s.idMap
    requires truth(id).embedding == v && CStr(truth(id).id) == id
    ensures Owed(s, AddReq([id], v)) && Admits(Regime(true, Some(truth)), s, AddReq([id], v))
    ensures Executed(READY, Some(s), AddReq([id], v)) == Effect(READY, Some(AddOne(s, id, v)), Up)
  {
    OneRow(v, s.d);
    AddOneRow(s, id, v);
    assert |[id]| == 1;
    AddEffect(s, [id], v, [v], AddOne(s, id, v));
    assert AddFaithful(truth, [id], [v]);
  }

  lemma AddEffect(s: State, ids: seq<Bytes>, embeddings: Vec, rows: seq<Vec>, t: State)
    requires WellFormed(s) && s.trained && Owed(s, AddReq(ids, embeddings)) && |rows| == |ids|
    requires RowsOf(embeddings, s.d, |ids|) == rows && AddRows(s, ids, rows) == t
    requires forall i | 0 <= i < |ids| :: Terminated(ids[i])
    ensures Executed(READY, Some(s), AddReq(ids, embeddings)) == Effect(READY, Some(t), Up)
  {
  }

  lemma OneRow(v: Vec, d: nat)
    requires |v| == d
    ensures RowsOf(v, d, 1) == [v] && 1 * d == d
  {
    assert 0 * d == 0 && v[0..d] == v;
  }

  lemma AddOneRow(s: State, id: Bytes, v: Vec)
    requires WellFormed(s) && s.trained && s.nCells > 0 && Nearest(s.geo, v) < s.nCells
    ensures AddRows(s, [id], [v]) == AddOne(s, id, v)
  {
    var t := AddOne(s, id, v);
    assert [id][1..] == [] && [v][1..] == [];
    assert AddRows(s, [id], [v]) == AddRows(t, [], []) == t;
  }

  /** Every cell is among the nearest when all are asked for. */
  lemma AllProbed(s: State, v: Vec)
    requires WellFormed(s) && s.trained
    ensures CellsOf(s, Probe(s.geo, v, s.nCells))
    ensures forall c: nat | c < s.nCells :: c in Probe(s.geo, v, s.nCells)
  {
    RankIsPermutation(s.geo, v);
    ProbeInRange(s.geo, v, s.nCells);
    assert Probe(s.geo, v, s.nCells) == Rank(s.geo, v);
  }

  /** Whatever is resident has all the ids its cell has. */
  ghost predicate InFull(s: State)
    requires WellFormed(s)
  {
    forall c: nat | c < s.nCells && Resident(s, c) :: s.residence[c] == |s.idsByCell[c]|
  }

  /** A load leaves every cell it makes resident with all the ids it has. */
  lemma {:induction false} LoadedInFull(s: State, cells: seq<nat>, db: nat -> DbReply)
    requires WellFormed(s) && CellsOf(s, cells) && InFull(s)
    ensures InFull(LoadCells(s, cells, db).state)
    decreases |cells|
  {
    if cells != [] {
      var c := cells[0];
      if Resident(s, c) || (db(c).Rows? && Loadable(s, c, db(c).rows)) {
        LoadFirst(s, cells, db);
        LoadedInFull(AfterFirst(s, c, db), cells[1..], db);
      }
    }
  }

  /** Loading all cells of a core that has none. */
  lemma AllLoads(s: State, xq: Vec, truth: Collection) returns (t: State)
    requires Coherent(s) && Distinct(s) && Synced(s, truth) && s.trained
    requires forall c: nat | c < s.nCells :: !Resident(s, c)
    ensures DbConforms(s, Replies(s, truth)) && DbFaithful(Replies(s, truth), truth)
    ensures CellsOf(s, Probe(s.geo, xq, s.nCells))
    ensures LoadCells(s, Probe(s.geo, xq, s.nCells), Replies(s, truth)) == Outcome(t, Done)
    ensures WellFormed(t) && SameRegistry(s, t) && AllLoaded(t)
  {
    var db := Replies(s, truth);
    var cells := Probe(s.geo, xq, s.nCells);
    AllProbed(s, xq);
    RepliesConform(s, truth);
    LoadCellsKeeps(s, cells, db);
    NeverRefused(s, cells, db);
    LoadedInFull(s, cells, db);
    t := LoadCells(s, cells, db).state;
    forall c: nat | c < t.nCells
      ensures Resident(t, c)
    {
      assert c in cells;
      var i :| 0 <= i < |cells| && cells[i] == c;
      assert Resident(t, cells[i]);
    }
  }

  /** A LOAD of all cells, answered by the database. */
  lemma LoadRuns(es: seq<Event>, s: State, d: nat, fine: (Vec, Vec) -> int, nCells: nat, idMap: map<Bytes, nat>,
                 xq: Vec, truth: Collection)
    returns (t: State)
    requires Reaches(Regime(true, Some(truth)), es, Idle(READY, Some(s), 1))
    requires WellFormed(s) && Holding(s, d, fine, nCells, idMap) && forall c: nat | c < s.nCells :: !Resident(s, c)
    ensures Reaches(Regime(true, Some(truth)), es + Ask(LoadReq(xq, nCells, Replies(s, truth))),
                    Idle(READY, Some(t), 1))
    ensures WellFormed(t) && Holding(t, d, fine, nCells, idMap) && AllLoaded(t) && SameRegistry(s, t)
  {
    ReachedIsSound(truth, es, s);
    t := AllLoads(s, xq, truth);
    AskRuns(Regime(true, Some(truth)), es, READY, Some(s), 1, LoadReq(xq, nCells, Replies(s, truth)));
  }

  /** A SEARCH is accepted and about to be executed. */
  lemma SearchAccepted(g: Regime, es: seq<Event>, s: State, req: Request)
    requires Reaches(g, es, Idle(READY, Some(s), 1)) && WellFormed(s) && req.SearchReq? && Owed(s, req)
    ensures var on := es + [Accept(0, WordOf(SEARCH))];
            && Legal(g, Boot(), on)
            && Run(g, Boot(), on).status == READY && Run(g, Boot(), on).core == Some(s)
            && LegalEvent(g, Run(g, Boot(), on), Execute(0, req))
  {
    var sv := Idle(READY, Some(s), 1);
    var e := Accept(0, WordOf(SEARCH));
    OneAnswer(READY, WordOf(SEARCH), Some(SEARCH));
    assert [e][1..] == [];
    assert Legal(g, Step(sv, e), []) && Legal(g, sv, [e]);
    RunAppend(g, Boot(), es, [e]);
  }

  // ---------- two records ----------

  const ID_A: Bytes := [65]
  const ID_B: Bytes := [66]

  function TwoRecords(a: Vec, b: Vec): Collection {
    id => if id == ID_B then Record(ID_B, b, [], []) else Record(ID_A, a, [], [])
  }

  lemma TwoIds()
    ensures CStr(ID_A) == ID_A && CStr(ID_B) == ID_B && ID_A != ID_B
  {
    assert ID_A[0] != ID_B[0];
  }

  const BOTH: map<Bytes, nat> := map[ID_A := 0][ID_B := 1]

  /** INITIALIZE, TRAIN, ADD of both vectors, LOAD of all cells. */
  lemma BothLoaded(d: nat, coarse: (Vec, Vec) -> int, fine: (Vec, Vec) -> int, centers: seq<Vec>, a: Vec, b: Vec)
    returns (es: seq<Event>, s: State)
    requires |a| == |b| == d && |centers| >= 1
    ensures Reaches(Regime(true, Some(TwoRecords(a, b))), es, Idle(READY, Some(s), 1))
    ensures WellFormed(s) && Holding(s, d, fine, |centers|, BOTH) && AllLoaded(s)
  {
    var truth, n := TwoRecords(a, b), |centers|;
    TwoIds();
    SetupRuns(Regime(true, Some(truth)), d, coarse, fine, centers);
    es, s := Setup(d, coarse, fine, centers), Trained(d, coarse, fine, centers);
    var t := AddRuns(es, s, d, fine, n, map[], ID_A, a, truth);
    es := es + Ask(AddReq([ID_A], a));
    var u := AddRuns(es, t, d, fine, n, map[ID_A := 0], ID_B, b, truth);
    es := es + Ask(AddReq([ID_B], b));
    s := LoadRuns(es, u, d, fine, n, BOTH, a, truth);
    es := es + Ask(LoadReq(a, n, Replies(u, truth)));
  }

  /** The hit of one id on the collection. */
  function HitOf(s: State, truth: Collection, q: Vec, id: Bytes): Hit
    requires id in s.idMap
  {
    Hit(s.geo.fine(q, truth(id).embedding), s.idMap[id])
  }

  /** With all cells probed, the collection's hits are those of the known ids. */
  lemma CollectionOfAll(s: State, truth: Collection, q: Vec, cells: seq<nat>)
    requires WellFormed(s) && Routed(s, truth) && forall c: nat | c < s.nCells :: c in cells
    ensures forall id | id in s.idMap :: HitOf(s, truth, q, id) in CollectionHits(s, truth, q, cells)
    ensures forall h | h in CollectionHits(s, truth, q, cells) ::
              exists id :: id in s.idMap && h == HitOf(s, truth, q, id)
  {
    forall id | id in s.idMap
      ensures HitOf(s, truth, q, id) in CollectionHits(s, truth, q, cells)
    {
      assert RegisteredHome(s, truth, id);
    }
    forall h | h in CollectionHits(s, truth, q, cells)
      ensures exists id :: id in s.idMap && h == HitOf(s, truth, q, id)
    {
      var id :| id in s.idMap && Nearest(s.geo, truth(id).embedding) in cells &&
        h == Hit(s.geo.fine(q, truth(id).embedding), s.idMap[id]);
      assert h == HitOf(s, truth, q, id);
    }
  }

  lemma LoadedIsFresh(s: State)
    requires WellFormed(s) && AllLoaded(s)
    ensures forall c: nat | c < s.nCells :: Fresh(s, c) && Resident(s, c)
  {
    forall c: nat | c < s.nCells
      ensures Fresh(s, c)
    {
      assert Snapshot(s, c) == s.idsByCell[c];
    }
  }

  /** With everything loaded, the vector itself is the best of both. */
  lemma BestOfBoth(s: State, truth: Collection, w: Vec, id: Bytes, other: Bytes)
    requires Coherent(s) && Synced(s, truth) && s.trained && s.nCells >= 1 && AllLoaded(s)
    requires id in s.idMap && other in s.idMap && forall x | x in s.idMap :: x == id || x == other
    requires s.geo.fine(w, truth(id).embedding) < s.geo.fine(w, truth(other).embedding)
    ensures Fetchable(s, Scan(s, w, 1, s.nCells)) && Fetch(s, Scan(s, w, 1, s.nCells)) == [truth(id)]
  {
    AllProbed(s, w);
    LoadedScanIsBest(s, truth, w);
    OwnHitIsBest(s, truth, w, id, other, Probe(s.geo, w, s.nCells), Scan(s, w, 1, s.nCells));
    FetchOne(s, truth, id, Scan(s, w, 1, s.nCells));
  }

  lemma LoadedScanIsBest(s: State, truth: Collection, w: Vec)
    requires Coherent(s) && Synced(s, truth) && s.trained && AllLoaded(s)
    ensures IsBest(Scan(s, w, 1, s.nCells), CollectionHits(s, truth, w, Probe(s.geo, w, s.nCells)), 1)
  {
    LoadedIsFresh(s);
    ScanAnswersCollectionIff(s, truth, w, s.nCells);
  }

  lemma FetchOne(s: State, truth: Collection, id: Bytes, scan: seq<Hit>)
    requires WellFormed(s) && Synced(s, truth) && AllLoaded(s) && id in s.idMap
    requires |scan| == 1 && scan[0].num == s.idMap[id]
    ensures Fetchable(s, scan) && Fetch(s, scan) == [truth(id)]
  {
    KnownIsHeld(s, truth, id);
  }

  lemma OwnHitIsBest(s: State, truth: Collection, w: Vec, id: Bytes, other: Bytes, cells: seq<nat>, scan: seq<Hit>)
    requires WellFormed(s) && Routed(s, truth) && forall c: nat | c < s.nCells :: c in cells
    requires id in s.idMap && other in s.idMap && forall x | x in s.idMap :: x == id || x == other
    requires s.geo.fine(w, truth(id).embedding) < s.geo.fine(w, truth(other).embedding)
    requires IsBest(scan, CollectionHits(s, truth, w, cells), 1)
    ensures scan == [HitOf(s, truth, w, id)]
  {
    CollectionOfAll(s, truth, w, cells);
    assert Before(HitOf(s, truth, w, id), HitOf(s, truth, w, other));
    OnlyBest(scan, HitOf(s, truth, w, id), CollectionHits(s, truth, w, cells));
  }

  lemma KnownIsHeld(s: State, truth: Collection, id: Bytes)
    requires WellFormed(s) && Synced(s, truth) && AllLoaded(s) && id in s.idMap
    ensures Held(s, truth, id)
  {
    assert RegisteredHome(s, truth, id);
    var c := Nearest(s.geo, truth(id).embedding);
    assert Snapshot(s, c) == s.idsByCell[c];
  }

  lemma OnlyBest(scan: seq<Hit>, best: Hit, pool: set<Hit>)
    requires IsBest(scan, pool, 1) && best in pool && forall h | h in pool :: h == best || Before(best, h)
    ensures scan == [best]
  {
    assert IsBest([best], pool, 1);
    BestIsUnique(scan, [best], pool, 1);
  }

  // ---------- the wrong slice ----------

  /** Whenever the index tells the slice searched from the query's own vector, a run of an
      ordinary setup leads to a search whose answer as written is not the full index's: of two
      stored vectors, one at the query's row and one at its offset, the second is returned.
      SlicesDiffer has such a query for every i >= 1 and d >= 2. */
  lemma LaterQueriesCanAnswerWrongly(d: nat, coarse: (Vec, Vec) -> int, fine: (Vec, Vec) -> int, centers: seq<Vec>,
                                     n: nat, i: nat, xq: Vec, db: nat -> DbReply)
    returns (truth: Collection, es: seq<Event>)
    requires d >= 1 && i < n && n * d <= |xq| && |centers| >= 1
    requires fine(Row(xq, d, i), Row(xq, d, i)) < fine(Row(xq, d, i), Window(xq, d, i))
    requires fine(Window(xq, d, i), Window(xq, d, i)) < fine(Window(xq, d, i), Row(xq, d, i))
    ensures Legal(Regime(true, Some(truth)), Boot(), es)
    ensures LegalEvent(Regime(true, Some(truth)), Run(Regime(true, Some(truth)), Boot(), es),
                       Execute(0, SearchReq(n, xq, 1, |centers|, true)))
    ensures Run(Regime(true, Some(truth)), Boot(), es).status == READY
    ensures var core := Run(Regime(true, Some(truth)), Boot(), es).core;
            && core.Some? && Coherent(core.value) && core.value.trained && core.value.nCells == |centers|
            && core.value.d == d
            && AnsweredWrongly(core.value, Row(xq, d, i), Window(xq, d, i), db)
  {
    var q, w := Row(xq, d, i), Window(xq, d, i);
    RowFits(xq, d, i, n);
    WindowFits(xq, d, i, n);
    truth := TwoRecords(q, w);
    var g := Regime(true, Some(truth));
    var before, s := BothLoaded(d, coarse, fine, centers, q, w);
    ReachedIsSound(truth, before, s);
    SearchAccepted(g, before, s, SearchReq(n, xq, 1, |centers|, true));
    es := before + [Accept(0, WordOf(SEARCH))];
    TwoIds();
    BestOfBoth(s, truth, q, ID_A, ID_B);
    BestOfBoth(s, truth, w, ID_B, ID_A);
    AllAreHits(s, q);
    if DbConforms(s, db) {
      HitAnswersLikeFullIndex(s, db, q, 1, s.nCells);
    }
  }

  /** A require_all hit of q on all cells that, searched with w, is not the full index's answer. */
  ghost predicate AnsweredWrongly(s: State, q: Vec, w: Vec, db: nat -> DbReply)
    requires Coherent(s) && s.trained && s.nCells >= 1
  {
    && IsHit(s, q, s.nCells, true)
    && (DbConforms(s, db) ==>
          var t := FullIndex(s, db).state;
          && Coherent(t) && SameRegistry(s, t)
          && Query(s, q, w, 1, s.nCells, true) != Query(t, q, q, 1, s.nCells, true))
  }

  lemma AllAreHits(s: State, q: Vec)
    requires Coherent(s) && s.trained && s.nCells >= 1 && forall c: nat | c < s.nCells :: Resident(s, c)
    ensures IsHit(s, q, s.nCells, true)
  {
    HitProbesResidents(s, q, s.nCells);
  }

  /** A vector of zeros and ones. */
  ghost predicate Binary(v: Vec) {
    forall p | 0 <= p < |v| :: v[p] == ZERO || v[p] == ONE
  }

  /** It is enough that the index scores a vector of zeros and ones better against itself than
      against another such vector: then every later query of two or more dimensions has a call,
      one 1.0 among zeros, on which it is answered wrongly. */
  lemma OneAmongZerosIsAnsweredWrongly(d: nat, coarse: (Vec, Vec) -> int, fine: (Vec, Vec) -> int, centers: seq<Vec>,
                                       i: nat, db: nat -> DbReply)
    returns (xq: Vec, truth: Collection, es: seq<Event>)
    requires d >= 2 && i >= 1 && |centers| >= 1
    requires forall v, w | Binary(v) && Binary(w) && |v| == |w| == d && v != w :: fine(v, v) < fine(v, w)
    ensures Binary(xq) && |xq| == (i + 1) * d && Legal(Regime(true, Some(truth)), Boot(), es)
    ensures LegalEvent(Regime(true, Some(truth)), Run(Regime(true, Some(truth)), Boot(), es),
                       Execute(0, SearchReq(i + 1, xq, 1, |centers|, true)))
    ensures var core := Run(Regime(true, Some(truth)), Boot(), es).core;
            && core.Some? && Coherent(core.value) && core.value.trained && core.value.nCells == |centers|
            && AnsweredWrongly(core.value, Row(xq, d, i), Window(xq, d, i), db)
  {
    xq := SlicesDiffer(d, i);
    BinarySlices(xq, d, i);
    truth, es := LaterQueriesCanAnswerWrongly(d, coarse, fine, centers, i + 1, i, xq, db);
  }

  lemma BinarySlices(xq: Vec, d: nat, i: nat)
    requires Binary(xq) && i * d + d <= |xq| && i + d <= |xq|
    ensures Binary(Row(xq, d, i)) && Binary(Window(xq, d, i))
    ensures |Row(xq, d, i)| == |Window(xq, d, i)| == d
  {
  }

  // ---------- the stale cell ----------

  /** INITIALIZE, TRAIN, ADD, LOAD of all cells, another ADD, SEARCH: every search hits and misses
      the vector added last, for every k that has room for both. */
  lemma AddAfterLoadIsMissed(d: nat, coarse: (Vec, Vec) -> int, fine: (Vec, Vec) -> int, centers: seq<Vec>,
                             a: Vec, b: Vec, q: Vec, k: nat)
    returns (es: seq<Event>)
    requires d >= 1 && |a| == |b| == |q| == d && |centers| >= 1 && k >= 2
    ensures var truth := TwoRecords(a, b);
            && Legal(Regime(true, Some(truth)), Boot(), es)
            && var sv := Run(Regime(true, Some(truth)), Boot(), es);
            && LegalEvent(Regime(true, Some(truth)), sv, Execute(0, SearchReq(1, q, k, |centers|, true)))
            && sv.status == READY && sv.core.Some?
            && var s := sv.core.value;
            && Coherent(s) && s.trained && s.nCells == |centers| && IsHit(s, q, s.nCells, true)
            && s.idMap == BOTH
            && !IsBest(Scan(s, q, k, s.nCells), CollectionHits(s, truth, q, Probe(s.geo, q, s.nCells)), k)
  {
    var before, s := AddedSince(d, coarse, fine, centers, a, b, q, k);
    OneRow(q, d);
    SearchAccepted(Regime(true, Some(TwoRecords(a, b))), before, s, SearchReq(1, q, k, |centers|, true));
    es := before + [Accept(0, WordOf(SEARCH))];
  }

  /** The run up to the SEARCH. */
  lemma AddedSince(d: nat, coarse: (Vec, Vec) -> int, fine: (Vec, Vec) -> int, centers: seq<Vec>,
                   a: Vec, b: Vec, q: Vec, k: nat)
    returns (es: seq<Event>, s: State)
    requires |a| == |b| == d && |centers| >= 1 && k >= 2
    ensures Reaches(Regime(true, Some(TwoRecords(a, b))), es, Idle(READY, Some(s), 1))
    ensures Coherent(s) && Holding(s, d, fine, |centers|, BOTH) && IsHit(s, q, s.nCells, true)
    ensures !IsBest(Scan(s, q, k, s.nCells), CollectionHits(s, TwoRecords(a, b), q, Probe(s.geo, q, s.nCells)), k)
  {
    var truth, n := TwoRecords(a, b), |centers|;
    var before, loaded := OneLoaded(d, coarse, fine, centers, a, b);
    TwoIds();
    s := AddRuns(before, loaded, d, fine, n, map[ID_A := 0], ID_B, b, truth);
    es := before + Ask(AddReq([ID_B], b));
    ReachedIsResidency(truth, before, loaded);
    ReachedIsSound(truth, es, s);
    StaleOfTwo(loaded, s, truth, ID_A, ID_B, b, q, k);
  }

  /** INITIALIZE, TRAIN, ADD of the first vector, LOAD of all cells. */
  lemma OneLoaded(d: nat, coarse: (Vec, Vec) -> int, fine: (Vec, Vec) -> int, centers: seq<Vec>, a: Vec, b: Vec)
    returns (es: seq<Event>, s: State)
    requires |a| == |b| == d && |centers| >= 1
    ensures Reaches(Regime(true, Some(TwoRecords(a, b))), es, Idle(READY, Some(s), 1))
    ensures WellFormed(s) && Holding(s, d, fine, |centers|, map[ID_A := 0]) && AllLoaded(s)
  {
    var truth, n := TwoRecords(a, b), |centers|;
    TwoIds();
    SetupRuns(Regime(true, Some(truth)), d, coarse, fine, centers);
    es, s := Setup(d, coarse, fine, centers), Trained(d, coarse, fine, centers);
    var t := AddRuns(es, s, d, fine, n, map[], ID_A, a, truth);
    es := es + Ask(AddReq([ID_A], a));
    s := LoadRuns(es, t, d, fine, n, map[ID_A := 0], a, truth);
    es := es + Ask(LoadReq(a, n, Replies(t, truth)));
  }

  /** s was all loaded and knew one id; t has another one since. */
  lemma StaleOfTwo(s: State, t: State, truth: Collection, id: Bytes, added: Bytes, v: Vec, q: Vec, k: nat)
    requires WellFormed(s) && Residency(s) && AllLoaded(s) && s.trained
    requires Nearest(s.geo, v) < s.nCells && t == AddOne(s, added, v)
    requires Coherent(t) && Synced(t, truth) && s.idMap.Keys == {id} && CStr(added) == added && added != id && k >= 2
    ensures IsHit(t, q, t.nCells, true)
    ensures !IsBest(Scan(t, q, k, t.nCells), CollectionHits(t, truth, q, Probe(t.geo, q, t.nCells)), k)
  {
    AllAreHits(t, q);
    AllProbed(t, q);
    GrownSince(s, t, id, added, v);
    SnapshotOfOne(t, truth, q, Probe(t.geo, q, t.nCells), id);
    StaleScanMisses(t, truth, q, k, t.nCells, Nearest(s.geo, v));
  }

  /** The snapshots of t still name the one id only, and a cell of t has the other as well. */
  lemma GrownSince(s: State, t: State, id: Bytes, added: Bytes, v: Vec)
    requires WellFormed(s) && Residency(s) && AllLoaded(s) && Nearest(s.geo, v) < s.nCells && t == AddOne(s, added, v)
    requires s.idMap.Keys == {id} && CStr(added) == added && added != id
    ensures WellFormed(t) && !Fresh(t, Nearest(s.geo, v))
    ensures forall x: nat, y | x < t.nCells && y in Snapshot(t, x) :: y == id
  {
    var c := Nearest(s.geo, v);
    AddOneKeepsSnapshots(s, added, v);
    assert forall x: nat | x < s.nCells :: Snapshot(s, x) == s.idsByCell[x];
    assert t.idsByCell[c][|s.idsByCell[c]|] == added;
  }

  lemma SnapshotOfOne(t: State, truth: Collection, q: Vec, cells: seq<nat>, id: Bytes)
    requires WellFormed(t) && id in t.idMap && forall x: nat, y | x < t.nCells && y in Snapshot(t, x) :: y == id
    ensures |SnapshotHits(t, truth, q, cells)| <= 1
  {
    forall h | h in SnapshotHits(t, truth, q, cells)
      ensures h == HitOf(t, truth, q, id)
    {
      var x: nat, y :| x in cells && x < t.nCells && y in Snapshot(t, x) && y in t.idMap &&
        h == Hit(t.geo.fine(q, truth(y).embedding), t.idMap[y]);
    }
    AtMostOne(SnapshotHits(t, truth, q, cells), HitOf(t, truth, q, id));
  }

  lemma AtMostOne(hits: set<Hit>, h: Hit)
    requires forall x | x in hits :: x == h
    ensures |hits| <= 1
  {
    if hits != {} {
      assert hits == {h};
    }
  }
}

/** The cache object: a status, a core replaced by every INITIALIZE, and one handler for each
    command. Each handler is a step of Server.dfy; search also sends its reply. */
module CacheClass {
  import opened Bytes
  import opened Ranking
  import opened Commands
  import opened CoreState
  import opened CoreInvariants
  import opened CoreLoads
  import opened CoreSearch
  import opened CoreClass
  import opened Framing
  import opened Reply
  import opened Server

  /** A search the machine can answer: counts fit an int, every stored record fits memory. */
  ghost predicate Answerable(s: State, req: Request) {
    req.SearchReq? ==>
      && req.k < TWO31
      && forall num | num in s.dataMap :: Small(s.dataMap[num])
  }

  /** What the client should read for query i: what the core's Query finds, or nothing. */
  ghost function Expected(s: State, xq: Vec, i: nat, k: nat, nprobe: nat, requireAll: bool): seq<Record>
    requires Coherent(s) && s.trained && 1 <= nprobe <= s.nCells
  {
    match Query(s, Row(xq, s.d, i), Window(xq, s.d, i), k, nprobe, requireAll)
    case Miss => []
    case Found(records) => records
  }

  /** Query by query. */
  ghost function Answers(s: State, req: Request): (r: seq<seq<Record>>)
    requires Coherent(s) && s.trained && req.SearchReq? && 1 <= req.nprobe <= s.nCells
    ensures |r| == req.n
  {
    seq(req.n, i requires 0 <= i < req.n => Expected(s, req.xqs, i, req.k, req.nprobe, req.requireAll))
  }

  /** Hit counts and slots that can be sent and report exactly the answers. */
  ghost predicate IsReply(s: State, req: Request, cacheHits: seq<int>, slots: seq<Record>)
    requires Coherent(s) && s.trained && req.SearchReq? && 1 <= req.nprobe <= s.nCells
  {
    && |cacheHits| == req.n && |slots| == req.n * req.k
    && (forall h | h in cacheHits :: FitsInt(h) && h <= req.k)
    && (forall r | r in slots :: Sendable(r))
    && ReportedFrom(cacheHits, slots, req.k, 0) == Answers(s, req)
  }

  class Cache {
    var status: Status
    var core: Core?

    constructor ()
      ensures Valid() && status == UNINITIALIZED && core == null
    {
      status, core := UNINITIALIZED, null;
    }

    ghost function Repr(): set<object>
      reads this
    {
      if core == null then {this} else {this, core, core.residence}
    }

    ghost function CoreOf(): Option<State>
      reads Repr()
    {
      if core == null then None else Some(core.Abs())
    }

    ghost predicate Valid()
      reads Repr()
    {
      core != null ==> Coherent(core.Abs())
    }

    ghost predicate Serves(req: Request)
      reads Repr()
    {
      Valid() && (core != null ==> Owed(core.Abs(), req) && Answerable(core.Abs(), req))
    }

    method ProcessCommand(command: Bytes) returns (r: Option<Command>)
      ensures r.Some? ==> WordOf(r.value) == command && Allowed(status, r.value)
      ensures r.None? ==> forall c | WordOf(c) == command :: !Allowed(status, c)
      ensures r == AcceptedAs(status, command)
    {
      r := Commands.ProcessCommand(status, command);
    }

    /** Runs the command whose arguments are complete. */
    method ProcessArgs(req: Request, out: Output) returns (health: Health)
      requires Serves(req) && out !in Repr() && out.buffer !in Repr() && out.buffer.Length == MAX_LENGTH
      modifies Repr(), out`sent, out.buffer
      ensures health == Up ==> Valid()
      ensures var x := Executed(old(status), old(CoreOf()), req);
              health == x.health && (health == Up ==> status == x.status && CoreOf() == x.core)
    {
      match req
      case SearchReq(n, xqs, k, nprobe, requireAll) =>
        health := Search(n, xqs, k, nprobe, requireAll, out);
      case AddReq(ids, embeddings) =>
        health := Add(ids, embeddings);
      case InitializeReq(d, nCells, coarse, fine) =>
        Initialize(d, nCells, coarse, fine);
        health := Up;
      case TrainReq(learned) =>
        health := Train(learned);
      case LoadReq(xq, nload, db) =>
        health := Load(xq, nload, db);
      case EvictReq(xq, nevict) =>
        health := Evict(xq, nevict);
    }

    method Initialize(d: nat, nCells: nat, coarse: (Vec, Vec) -> int, fine: (Vec, Vec) -> int)
      modifies this
      ensures Valid() && fresh(Repr() - {this})
      ensures status == INITIALIZED && CoreOf() == Some(Blank(d, nCells, coarse, fine))
      ensures core != null && core.d == d && core.nCells == nCells && core.coarse == coarse && core.fine == fine
    {
      core := new Core(d, nCells, coarse, fine);
      BlankIsCoherent(d, nCells, coarse, fine);
      status := INITIALIZED;
    }

    method Train(learned: seq<Vec>) returns (health: Health)
      requires Serves(TrainReq(learned))
      modifies Repr()
      ensures health == Up ==> Valid()
      ensures var x := Executed(old(status), old(CoreOf()), TrainReq(learned));
              health == x.health && (health == Up ==> status == x.status && CoreOf() == x.core)
    {
      if core == null {
        return NullCore;
      }
      TrainIsSticky(core.Abs(), learned);
      core.Train(learned);
      status := READY;
      return Up;
    }

    /** A database failure is caught and reported; what was loaded before it stays. */
    method Load(xq: Vec, nload: nat, db: nat -> DbReply) returns (health: Health)
      requires Serves(LoadReq(xq, nload, db))
      modifies Repr()
      ensures health == Up ==> Valid()
      ensures var x := Executed(old(status), old(CoreOf()), LoadReq(xq, nload, db));
              health == x.health && (health == Up ==> status == x.status && CoreOf() == x.core)
    {
      if core == null {
        return NullCore;
      }
      if !core.isTrained {
        return if nload > 0 then Untrained else Up;
      }
      ghost var s := core.Abs();
      ProbeInRange(s.geo, xq, nload);
      LoadCellsKeeps(s, Probe(s.geo, xq, nload), db);
      RepliesFitRequests(s, db);
      var ending := core.LoadCellWithVec(xq, nload, db);
      return if ending == Aborted then AssertFailed else Up;
    }

    method Evict(xq: Vec, nevict: nat) returns (health: Health)
      requires Serves(EvictReq(xq, nevict))
      modifies Repr()
      ensures health == Up ==> Valid()
      ensures var x := Executed(old(status), old(CoreOf()), EvictReq(xq, nevict));
              health == x.health && (health == Up ==> status == x.status && CoreOf() == x.core)
    {
      if core == null {
        return NullCore;
      }
      if !core.isTrained {
        return if nevict > 0 then Untrained else Up;
      }
      ghost var s := core.Abs();
      ProbeInRange(s.geo, xq, nevict);
      EvictCellsKeeps(s, Probe(s.geo, xq, nevict));
      core.EvictCellWithVec(xq, nevict);
      return Up;
    }

    method Add(ids: seq<Bytes>, embeddings: Vec) returns (health: Health)
      requires Serves(AddReq(ids, embeddings))
      modifies Repr()
      ensures health == Up ==> Valid()
      ensures var x := Executed(old(status), old(CoreOf()), AddReq(ids, embeddings));
              health == x.health && (health == Up ==> status == x.status && CoreOf() == x.core)
    {
      if core == null {
        return NullCore;
      }
      if !core.isTrained {
        return if ids != [] then Untrained else Up;
      }
      ghost var s := core.Abs();
      AddKeepsCoherence(s, ids, RowsOf(embeddings, s.d, |ids|));
      assert ids[..|ids|] == ids;
      var ending := core.Add(|ids|, ids, embeddings);
      return if ending == Aborted then AssertFailed else Up;
    }

    /** The reply sent is the encoding of hit counts and slots that report, query by query,
        exactly what Query answers. */
    method Search(n: nat, xqs: Vec, k: nat, nprobe: nat, requireAll: bool, out: Output) returns (health: Health)
      requires Serves(SearchReq(n, xqs, k, nprobe, requireAll))
      requires out !in Repr() && out.buffer !in Repr() && out.buffer.Length == MAX_LENGTH
      modifies Repr(), out`sent, out.buffer
      ensures health == Up ==> Valid()
      ensures var x := Executed(old(status), old(CoreOf()), SearchReq(n, xqs, k, nprobe, requireAll));
              health == x.health && (health == Up ==> status == x.status && CoreOf() == x.core)
      ensures health == Up && !core.isTrained ==> n == 0 && out.sent == old(out.sent)
      ensures health == Up && core.isTrained ==>
        exists cacheHits, slots ::
          && IsReply(core.Abs(), SearchReq(n, xqs, k, nprobe, requireAll), cacheHits, slots)
          && Concat(out.sent) == Concat(old(out.sent)) + EncodeFrom(cacheHits, slots, k, 0)
    {
      if core == null {
        return NullCore;
      }
      if !core.isTrained {
        return if n > 0 then Untrained else Up;
      }
      var results, cacheHits := SearchCore(n, xqs, k, nprobe, requireAll);
      ghost var hits, slots := cacheHits[..], results[..];
      out.SendAnswers(n, k, results, cacheHits);
      assert IsReply(core.Abs(), SearchReq(n, xqs, k, nprobe, requireAll), hits, slots);
      return Up;
    }

    /** The arrays of the handler, as the core's search leaves them. */
    method SearchCore(n: nat, xqs: Vec, k: nat, nprobe: nat, requireAll: bool)
      returns (results: array<Record>, cacheHits: array<int>)
      requires Serves(SearchReq(n, xqs, k, nprobe, requireAll)) && core != null && core.isTrained
      modifies core
      ensures core.Abs() == old(core.Abs())
      ensures fresh(results) && fresh(cacheHits) && results.Length == n * k && cacheHits.Length == n
      ensures IsReply(core.Abs(), SearchReq(n, xqs, k, nprobe, requireAll), cacheHits[..], results[..])
      ensures forall r | r in results[..] :: Small(r)
      ensures OnCore(core.Abs(), SearchReq(n, xqs, k, nprobe, requireAll)) == Outcome(core.Abs(), Done)
    {
      ghost var s := core.Abs();
      results := new Record[n * k](_ => EMPTY_RECORD);
      cacheHits := new int[n];
      ghost var before := results[..];
      var ending := core.Search(n, xqs, k, nprobe, requireAll, results, cacheHits);
      AllFetchable(s, xqs, n, k, nprobe);
      RepliesFit(s, SearchReq(n, xqs, k, nprobe, requireAll), results[..], cacheHits[..], before);
    }
  }

  lemma RepliesFitRequests(s: State, db: nat -> DbReply)
    requires WellFormed(s) && DbConforms(s, db)
    ensures forall c: nat | c < s.nCells && db(c).Rows? :: |db(c).rows| <= |s.idsByCell[c]|
  {
    forall c: nat | c < s.nCells && db(c).Rows?
      ensures |db(c).rows| <= |s.idsByCell[c]|
    {
      ConformingIds(s.idsByCell[c], db(c).rows);
    }
  }

  lemma AllFetchable(s: State, xqs: Vec, n: nat, k: nat, nprobe: nat)
    requires Coherent(s) && s.trained && nprobe <= s.nCells
    ensures forall i: nat | i < n :: Fetchable(s, Scan(s, Window(xqs, s.d, i), k, nprobe))
  {
    forall i: nat | i < n
      ensures Fetchable(s, Scan(s, Window(xqs, s.d, i), k, nprobe))
    {
      ScanIsStored(s, Window(xqs, s.d, i), k, nprobe);
    }
  }

  ghost predicate Small(r: Record) {
    |EncodeRecord(r)| < TWO64
  }

  lemma SlotOwner(p: nat, n: nat, k: nat)
    requires p < n * k
    ensures k > 0 && p / k < n && (p / k) * k <= p < (p / k) * k + k
  {
  }

  /** One query's slots and count after a search. */
  lemma AnswerFits(s: State, q: Vec, w: Vec, lo: nat, k: nat, nprobe: nat, requireAll: bool,
                   slots: seq<Record>, count: int, before: seq<Record>)
    requires Coherent(s) && s.trained && 1 <= nprobe <= s.nCells && k < TWO31
    requires Core.Answered(s, q, w, lo, k, nprobe, requireAll, slots, count, before)
    requires forall num | num in s.dataMap :: Small(s.dataMap[num])
    requires forall r | r in before :: r == EMPTY_RECORD
    ensures FitsInt(count) && count <= k
    ensures Slice(slots, lo, count) == match Query(s, q, w, k, nprobe, requireAll) case Miss => [] case Found(rs) => rs
    ensures SmallFrom(slots, lo, k)
  {
    if IsHit(s, q, nprobe, requireAll) {
      Core.SlotsAreNearestStored(s, q, w, lo, k, nprobe, requireAll, slots, count, before);
      HitSlots(s, slots, lo, k, Scan(s, w, k, nprobe));
    } else {
      MissSlots(slots, lo, k, before);
    }
  }

  lemma HitSlots(s: State, slots: seq<Record>, lo: nat, k: nat, hits: seq<Hit>)
    requires lo + k <= |slots|
    requires forall num | num in s.dataMap :: Small(s.dataMap[num])
    requires SlotsHold(s, hits, slots[lo..lo + k])
    ensures forall p | lo <= p < lo + k :: Small(slots[p])
  {
    forall p | lo <= p < lo + k
      ensures Small(slots[p])
    {
      assert slots[p] == slots[lo..lo + k][p - lo];
    }
  }

  lemma MissSlots(slots: seq<Record>, lo: nat, k: nat, before: seq<Record>)
    requires lo + k <= |slots| == |before| && slots[lo..lo + k] == before[lo..lo + k]
    requires forall r | r in before :: r == EMPTY_RECORD
    ensures forall p | lo <= p < lo + k :: Small(slots[p])
  {
    forall p | lo <= p < lo + k
      ensures Small(slots[p])
    {
      assert slots[p] == slots[lo..lo + k][p - lo] == before[lo..lo + k][p - lo] == before[p];
      assert before[p] in before;
    }
  }

  lemma RepliesFit(s: State, req: Request, slots: seq<Record>, cacheHits: seq<int>, before: seq<Record>)
    requires Coherent(s) && s.trained && req.SearchReq? && 1 <= req.nprobe <= s.nCells && Answerable(s, req)
    requires |cacheHits| == req.n && |slots| == |before| == req.n * req.k
    requires Core.AnsweredUpTo(s, req.xqs, req.n, req.k, req.nprobe, req.requireAll, slots, cacheHits, before)
    requires forall r | r in before :: r == EMPTY_RECORD
    ensures IsReply(s, req, cacheHits, slots)
    ensures forall r | r in slots :: Small(r)
  {
    var answers := Answers(s, req);
    forall i: nat | i < req.n
      ensures FitsInt(cacheHits[i]) && cacheHits[i] <= req.k
      ensures Reported(slots, req.k, i, cacheHits[i]) == answers[i]
      ensures SmallFrom(slots, Start(i, req.k), req.k)
    {
      ReplyFits(s, req, slots, i, cacheHits[i], before);
    }
    AllReported(cacheHits, slots, req.k, answers, 0);
    AllSmall(slots, req.n, req.k);
  }

  lemma {:induction false} AllReported(cacheHits: seq<int>, slots: seq<Record>, k: nat,
                                         answers: seq<seq<Record>>, i: nat)
    requires i <= |cacheHits| == |answers|
    requires forall j: nat | j < |answers| :: Reported(slots, k, j, cacheHits[j]) == answers[j]
    ensures ReportedFrom(cacheHits, slots, k, i) == answers[i..]
    ensures i == 0 ==> ReportedFrom(cacheHits, slots, k, i) == answers
    decreases |cacheHits| - i
  {
    if i < |cacheHits| {
      AllReported(cacheHits, slots, k, answers, i + 1);
      assert answers[i..] == [answers[i]] + answers[i + 1..];
    }
    assert answers[0..] == answers;
  }

  lemma ReplyFits(s: State, req: Request, slots: seq<Record>, i: nat, count: int, before: seq<Record>)
    requires Coherent(s) && s.trained && req.SearchReq? && 1 <= req.nprobe <= s.nCells && Answerable(s, req)
    requires Core.AnsweredAt(s, req.xqs, i, req.k, req.nprobe, req.requireAll, slots, count, before)
    requires forall r | r in before :: r == EMPTY_RECORD
    ensures FitsInt(count) && count <= req.k
    ensures Reported(slots, req.k, i, count) == Expected(s, req.xqs, i, req.k, req.nprobe, req.requireAll)
    ensures SmallFrom(slots, Start(i, req.k), req.k)
  {
    StartIs(i, req.k);
    AnswerFits(s, Row(req.xqs, s.d, i), Window(req.xqs, s.d, i), Start(i, req.k), req.k, req.nprobe, req.requireAll,
               slots, count, before);
  }

  ghost predicate SmallFrom(slots: seq<Record>, lo: nat, k: nat) {
    lo + k <= |slots| && forall p | lo <= p < lo + k :: Small(slots[p])
  }

  lemma AllSmall(slots: seq<Record>, n: nat, k: nat)
    requires |slots| == n * k && forall i: nat | i < n :: SmallFrom(slots, Start(i, k), k)
    ensures forall r | r in slots :: Small(r) && Sendable(r)
  {
    forall r | r in slots
      ensures Small(r) && Sendable(r)
    {
      var p: nat :| p < |slots| && slots[p] == r;
      SlotOwner(p, n, k);
      StartIs(p / k, k);
      assert SmallFrom(slots, Start(p / k, k), k);
      assert Small(slots[p]);
    }
  }

  /** A client is told what the core's Query finds: its records, or nothing on a miss. */
  ghost predicate Told(s: State, q: Vec, w: Vec, k: nat, nprobe: nat, requireAll: bool, told: seq<Record>)
    requires Coherent(s) && s.trained && 1 <= nprobe <= s.nCells
  {
    if IsHit(s, q, nprobe, requireAll) then Query(s, q, w, k, nprobe, requireAll) == Found(told) else told == []
  }

  /** Query i is about q and w: floats i * d to i * d + d decide residency, and floats i to i + d
      are what the index is searched for. */
  ghost predicate Concerns(x: Vec, d: nat, i: nat, q: Vec, w: Vec) {
    && 0 <= i * d && i * d + d <= |x| && q == x[i * d..i * d + d]
    && i + d <= |x| && w == x[i..i + d]
  }

  /** What the client of query i is told is what the core's Query finds for those floats. */
  lemma AnswersSpelled(s: State, req: Request, i: nat, q: Vec, w: Vec)
    requires Coherent(s) && s.trained && req.SearchReq? && 1 <= req.nprobe <= s.nCells && i < req.n
    requires Concerns(req.xqs, s.d, i, q, w)
    ensures Told(s, q, w, req.k, req.nprobe, req.requireAll, Answers(s, req)[i])
  {
    RowIs(req.xqs, s.d, i);
    assert q == Row(req.xqs, s.d, i) && w == Window(req.xqs, s.d, i);
    RowIsTold(s, req, i, q, w);
  }

  lemma EveryQueryConcerns(s: State, req: Request, i: nat)
    requires WellFormed(s) && req.SearchReq? && Owed(s, req) && i < req.n
    ensures Concerns(req.xqs, s.d, i, Row(req.xqs, s.d, i), Window(req.xqs, s.d, i))
  {
    SlicesOfQuery(req.xqs, s.d, i, req.n);
  }

  lemma RowIsTold(s: State, req: Request, i: nat, q: Vec, w: Vec)
    requires Coherent(s) && s.trained && req.SearchReq? && 1 <= req.nprobe <= s.nCells && i < req.n
    requires q == Row(req.xqs, s.d, i) && w == Window(req.xqs, s.d, i)
    ensures Told(s, q, w, req.k, req.nprobe, req.requireAll, Answers(s, req)[i])
  {
    assert Answers(s, req)[i] == Expected(s, req.xqs, i, req.k, req.nprobe, req.requireAll);
  }

  /** End to end: a client that reads the reply of a search gets for every query exactly what
      the core's Query answers, nothing for a miss, with no byte left over. */
  lemma ReplyDeliversQueries(s: State, req: Request, cacheHits: seq<int>, slots: seq<Record>, tail: Bytes)
    requires Coherent(s) && s.trained && req.SearchReq? && 1 <= req.nprobe <= s.nCells
    requires IsReply(s, req, cacheHits, slots)
    ensures TakeAnswers(req.n, EncodeFrom(cacheHits, slots, req.k, 0) + tail) == Some((Answers(s, req), tail))
  {
    ReplyRoundTrip(cacheHits, slots, req.k, tail);
  }
}

/** All sessions and the one cache they share, as a step relation: a session's command is
    accepted in one step of the event loop and executed in a later one, with the steps of
    other sessions in between. Every result here is about every run. */
module Server {
  import opened Bytes
  import opened Ranking
  import opened Commands
  import opened CoreState
  import opened CoreInvariants
  import opened CoreLoads
  import opened CoreSync
  import opened CoreSearch

  /** Decoded arguments, with what the environment answers during execution: the number of
      cells and the metrics chosen, the centroids learned, the database's replies by cell. */
  datatype Request =
    | InitializeReq(d: nat, nCells: nat, coarse: (Vec, Vec) -> int, fine: (Vec, Vec) -> int)
    | TrainReq(learned: seq<Vec>)
    | LoadReq(xq: Vec, nload: nat, db: nat -> DbReply)
    | SearchReq(n: nat, xqs: Vec, k: nat, nprobe: nat, requireAll: bool)
    | EvictReq(xq: Vec, nevict: nat)
    | AddReq(ids: seq<Bytes>, embeddings: Vec)

  function RequestedCommand(req: Request): Command {
    match req
    case InitializeReq(_, _, _, _) => INITIALIZE
    case TrainReq(_) => TRAIN
    case LoadReq(_, _, _) => LOAD
    case SearchReq(_, _, _, _, _) => SEARCH
    case EvictReq(_, _) => EVICT
    case AddReq(_, _) => ADD
  }

  /** Up, or how the process came down: an unknown or untimely command throws on the only
      thread; a handler dereferences a missing core; a handler searches a quantizer without
      centroids and indexes with -1; an assert fails. */
  datatype Health = Up | Rejected | NullCore | Untrained | AssertFailed

  /** An accepted command, and how many INITIALIZEs had run when it was accepted. */
  datatype Accepted = Accepted(cmd: Command, inits: nat)

  datatype Server = Server(status: Status, core: Option<State>, pending: map<nat, Accepted>, inits: nat, health: Health)

  datatype Event = Accept(sid: nat, word: Bytes) | Execute(sid: nat, req: Request)

  function Boot(): Server {
    Server(UNINITIALIZED, None, map[], 0, Up)
  }

  /** Executing a request other than INITIALIZE on a core. */
  ghost function OnCore(s: State, req: Request): (r: Outcome)
    requires WellFormed(s) && Owed(s, req) && !req.InitializeReq? && (req.TrainReq? || s.trained)
    ensures WellFormed(r.state)
  {
    match req
    case TrainReq(learned) => Outcome(Train(s, learned), Done)
    case LoadReq(xq, nload, db) =>
      ProbeInRange(s.geo, xq, nload);
      LoadCells(s, Probe(s.geo, xq, nload), db)
    case EvictReq(xq, nevict) =>
      ProbeInRange(s.geo, xq, nevict);
      Outcome(EvictCells(s, Probe(s.geo, xq, nevict)), Done)
    case AddReq(ids, embeddings) =>
      if forall i | 0 <= i < |ids| :: Terminated(ids[i])
      then Outcome(AddRows(s, ids, RowsOf(embeddings, s.d, |ids|)), Done)
      else Outcome(s, Aborted)
    case SearchReq(n, xqs, k, nprobe, requireAll) =>
      if forall i: nat | i < n && IsHit(s, Row(xqs, s.d, i), nprobe, requireAll) ::
           Fetchable(s, Scan(s, Window(xqs, s.d, i), k, nprobe))
      then Outcome(s, Done)
      else Outcome(s, Aborted)
    case InitializeReq(d, nCells, coarse, fine) => Outcome(s, Done)
  }

  /** What the code takes for granted of a caller and of the database. */
  ghost predicate Owed(s: State, req: Request)
    requires WellFormed(s)
  {
    match req
    case InitializeReq(_, _, _, _) => true
    case TrainReq(learned) => |learned| == s.nCells
    case LoadReq(_, nload, db) => nload <= s.nCells && DbConforms(s, db)
    case EvictReq(_, nevict) => nevict <= s.nCells
    case AddReq(ids, embeddings) => s.nCells > 0 && |ids| * s.d <= |embeddings|
    case SearchReq(n, xqs, _, nprobe, _) => 1 <= nprobe <= s.nCells && s.d >= 1 && n * s.d <= |xqs|
  }

  /** What executing a request makes of the cache and of the process. */
  datatype Effect = Effect(status: Status, core: Option<State>, health: Health)

  /** The handler's loop, which indexes cells by the quantizer's labels, runs at least once. */
  predicate Iterates(req: Request) {
    match req
    case LoadReq(_, nload, _) => nload > 0
    case SearchReq(n, _, _, _, _) => n > 0
    case EvictReq(_, nevict) => nevict > 0
    case AddReq(ids, _) => ids != []
    case _ => false
  }

  ghost function Executed(status: Status, core: Option<State>, req: Request): Effect
    requires core.Some? ==> WellFormed(core.value) && Owed(core.value, req)
  {
    if req.InitializeReq? then Effect(INITIALIZED, Some(Blank(req.d, req.nCells, req.coarse, req.fine)), Up)
    else if core.None? then Effect(status, core, NullCore)
    else if !req.TrainReq? && !core.value.trained then Effect(status, core, if Iterates(req) then Untrained else Up)
    else
      var r := OnCore(core.value, req);
      Effect(if req.TrainReq? then READY else status, Some(r.state), if r.ending == Aborted then AssertFailed else Up)
  }

  ghost predicate Enabled(sv: Server, e: Event) {
    && sv.health == Up
    && match e
       case Accept(sid, _) => sid !in sv.pending
       case Execute(sid, req) =>
         && sid in sv.pending
         && sv.pending[sid].cmd == RequestedCommand(req)
         && (sv.core.Some? ==> WellFormed(sv.core.value) && Owed(sv.core.value, req))
  }

  ghost function Step(sv: Server, e: Event): Server
    requires Enabled(sv, e)
  {
    match e
    case Accept(sid, word) =>
      (match AcceptedAs(sv.status, word)
       case None => sv.(health := Rejected)
       case Some(c) => sv.(pending := sv.pending[sid := Accepted(c, sv.inits)]))
    case Execute(sid, req) =>
      var x := Executed(sv.status, sv.core, req);
      Server(x.status, x.core, sv.pending - {sid}, if req.InitializeReq? then sv.inits + 1 else sv.inits, x.health)
  }

  // ---------- regimes ----------

  /** How well callers and database behave beyond what is owed: whether every ADD brings new
      ids of under 100 bytes, and whether the database holds a fixed collection that ADDs and
      replies agree with. */
  datatype Regime = Regime(newIds: bool, truth: Option<Collection>)

  ghost predicate Admits(g: Regime, s: State, req: Request)
    requires WellFormed(s)
  {
    && (g.newIds && req.AddReq? ==> NewIds(s, req.ids) && forall i | 0 <= i < |req.ids| :: Terminated(req.ids[i]))
    && (g.truth.Some? && req.LoadReq? ==> DbFaithful(req.db, g.truth.value))
    && (g.truth.Some? && req.AddReq? ==> AddFaithful(g.truth.value, req.ids, RowsOf(req.embeddings, s.d, |req.ids|)))
  }

  ghost predicate LegalEvent(g: Regime, sv: Server, e: Event) {
    && Enabled(sv, e)
    && (e.Execute? && sv.core.Some? ==> Admits(g, sv.core.value, e.req))
  }

  ghost predicate Legal(g: Regime, sv: Server, es: seq<Event>)
    decreases |es|
  {
    es == [] || (LegalEvent(g, sv, es[0]) && Legal(g, Step(sv, es[0]), es[1..]))
  }

  ghost function Run(g: Regime, sv: Server, es: seq<Event>): Server
    requires Legal(g, sv, es)
    decreases |es|
  {
    if es == [] then sv else Run(g, Step(sv, es[0]), es[1..])
  }

  // ---------- the invariant ----------

  ghost predicate CoreSound(g: Regime, s: State) {
    && Coherent(s)
    && OnlySnapshots(s)
    && (g.newIds ==> Distinct(s))
    && (g.truth.Some? ==> Synced(s, g.truth.value))
  }

  /** The status says whether there is a core and whether it is trained. */
  ghost predicate StatusSound(sv: Server) {
    match sv.status
    case UNINITIALIZED => sv.core.None?
    case INITIALIZED => sv.core.Some? && !sv.core.value.trained
    case TRAINING => false
    case READY => sv.core.Some? && sv.core.value.trained
  }

  /** An accepted command other than INITIALIZE has a core to run on; one that needs training
      has a trained core unless an INITIALIZE ran since it was accepted. */
  ghost predicate PendingSound(sv: Server, a: Accepted) {
    && a.inits <= sv.inits
    && (a.cmd != INITIALIZE ==> sv.core.Some?)
    && (Allowed(READY, a.cmd) && !Allowed(INITIALIZED, a.cmd) && a.inits == sv.inits ==> sv.status == READY)
  }

  ghost predicate Sound(g: Regime, sv: Server) {
    && StatusSound(sv)
    && (sv.core.Some? ==> CoreSound(g, sv.core.value))
    && (forall sid | sid in sv.pending :: PendingSound(sv, sv.pending[sid]))
    && sv.health != NullCore
    && (g.newIds ==> sv.health != AssertFailed)
  }

  lemma OnCoreKeepsSound(g: Regime, s: State, req: Request)
    requires CoreSound(g, s) && Owed(s, req) && Admits(g, s, req)
    requires !req.InitializeReq? && (req.TrainReq? || s.trained)
    ensures var r := OnCore(s, req);
            && CoreSound(g, r.state)
            && r.state.trained
            && (g.newIds ==> r.ending != Aborted)
  {
    match req
    case TrainReq(learned) =>
      TrainIsSticky(s, learned);
      if g.truth.Some? { TrainKeepsSync(s, learned, g.truth.value); }
    case LoadReq(xq, nload, db) =>
      ProbeInRange(s.geo, xq, nload);
      LoadCellsKeeps(s, Probe(s.geo, xq, nload), db);
      LoadCellsKeepsOnlySnapshots(s, Probe(s.geo, xq, nload), db);
      if g.truth.Some? { LoadCellsKeepsSync(s, Probe(s.geo, xq, nload), db, g.truth.value); }
    case EvictReq(xq, nevict) =>
      ProbeInRange(s.geo, xq, nevict);
      EvictCellsKeeps(s, Probe(s.geo, xq, nevict));
      EvictCellsKeepsOnlySnapshots(s, Probe(s.geo, xq, nevict));
      if g.truth.Some? { EvictCellsKeepsSync(s, Probe(s.geo, xq, nevict), g.truth.value); }
    case AddReq(ids, embeddings) =>
      AddKeepsSound(g, s, ids, RowsOf(embeddings, s.d, |ids|));
    case SearchReq(n, xqs, k, nprobe, requireAll) =>
      forall i: nat | i < n
        ensures Fetchable(s, Scan(s, Window(xqs, s.d, i), k, nprobe))
      {
        ScanIsStored(s, Window(xqs, s.d, i), k, nprobe);
      }
    case InitializeReq(d, nCells, coarse, fine) =>
  }

  lemma AddKeepsSound(g: Regime, s: State, ids: seq<Bytes>, vs: seq<Vec>)
    requires CoreSound(g, s) && s.trained && s.nCells > 0 && |ids| == |vs|
    requires g.newIds ==> NewIds(s, ids)
    requires g.truth.Some? ==> AddFaithful(g.truth.value, ids, vs)
    ensures CoreSound(g, AddRows(s, ids, vs))
  {
    AddKeepsCoherence(s, ids, vs);
    AddKeepsOnlySnapshots(s, ids, vs);
    if g.newIds { AddKeepsDistinct(s, ids, vs); }
    if g.truth.Some? { AddKeepsSync(s, ids, vs, g.truth.value); }
  }

  // ---------- one step ----------

  lemma StepKeepsSound(g: Regime, sv: Server, e: Event)
    requires Sound(g, sv) && LegalEvent(g, sv, e)
    ensures Sound(g, Step(sv, e))
  {
    match e
    case Accept(sid, word) =>
      AcceptKeepsSound(g, sv, sid, word);
    case Execute(sid, req) =>
      if req.InitializeReq? {
        InitializeKeepsSound(g, sv, sid, req);
      } else {
        assert PendingSound(sv, sv.pending[sid]);
        if req.TrainReq? || sv.core.value.trained {
          OnCoreKeepsSound(g, sv.core.value, req);
        }
        ExecuteKeepsPending(g, sv, sid, req);
      }
  }

  lemma AcceptKeepsSound(g: Regime, sv: Server, sid: nat, word: Bytes)
    requires Sound(g, sv) && LegalEvent(g, sv, Accept(sid, word))
    ensures Sound(g, Step(sv, Accept(sid, word)))
  {
    var t := Step(sv, Accept(sid, word));
    forall x | x in t.pending
      ensures PendingSound(t, t.pending[x])
    {
      assert x in sv.pending ==> PendingSound(sv, sv.pending[x]);
    }
  }

  lemma InitializeKeepsSound(g: Regime, sv: Server, sid: nat, req: Request)
    requires Sound(g, sv) && LegalEvent(g, sv, Execute(sid, req)) && req.InitializeReq?
    ensures Sound(g, Step(sv, Execute(sid, req)))
  {
    var t := Step(sv, Execute(sid, req));
    BlankIsCoherent(req.d, req.nCells, req.coarse, req.fine);
    if g.truth.Some? { BlankIsSynced(req.d, req.nCells, req.coarse, req.fine, g.truth.value); }
    forall x | x in t.pending
      ensures PendingSound(t, t.pending[x])
    {
      assert PendingSound(sv, sv.pending[x]);
    }
  }

  lemma ExecuteKeepsPending(g: Regime, sv: Server, sid: nat, req: Request)
    requires Sound(g, sv) && LegalEvent(g, sv, Execute(sid, req)) && !req.InitializeReq?
    ensures var t := Step(sv, Execute(sid, req)); forall x | x in t.pending :: PendingSound(t, t.pending[x])
  {
    var t := Step(sv, Execute(sid, req));
    forall x | x in t.pending
      ensures PendingSound(t, t.pending[x])
    {
      assert PendingSound(sv, sv.pending[x]);
      assert PendingSound(sv, sv.pending[sid]);
    }
  }

  /** What executing a command does to the process, command by command: INITIALIZE starts over;
      TRAIN makes READY; on a READY server a LOAD keeps the process up unless an assert fails,
      also when the database refuses, an ADD unless an id is too long, SEARCH and EVICT always;
      before training each of them does nothing or faults. No other session's command is lost. */
  lemma ExecutionOutcomes(g: Regime, sv: Server, sid: nat, req: Request)
    requires Sound(g, sv) && LegalEvent(g, sv, Execute(sid, req))
    ensures var t := Step(sv, Execute(sid, req));
            && t.pending == sv.pending - {sid}
            && t.inits == sv.inits + (if req.InitializeReq? then 1 else 0)
            && t.core.Some?
            && (req.InitializeReq? ==> t.health == Up && t.status == INITIALIZED)
            && (req.TrainReq? ==> t.health == Up && t.status == READY)
            && (!req.InitializeReq? && !req.TrainReq? ==> t.status == sv.status && sv.status in {INITIALIZED, READY})
            && (sv.status == READY && req.LoadReq? ==>
                  && sv.core.Some? && CellsOf(sv.core.value, Probe(sv.core.value.geo, req.xq, req.nload))
                  && var r := LoadCells(sv.core.value, Probe(sv.core.value.geo, req.xq, req.nload), req.db);
                  && t.core == Some(r.state)
                  && (t.health == Up <==> r.ending == Done || r.ending == DbFailed)
                  && (t.health == AssertFailed <==> r.ending == Aborted))
            && (sv.status == READY && req.AddReq? ==>
                  t.health == if forall i | 0 <= i < |req.ids| :: |CStr(req.ids[i])| < 100 then Up else AssertFailed)
            && (sv.status == READY && (req.SearchReq? || req.EvictReq?) ==> t.health == Up)
            && (sv.status == INITIALIZED && !req.InitializeReq? && !req.TrainReq? ==>
                  t.core == sv.core && t.health in {Up, Untrained})
  {
    assert PendingSound(sv, sv.pending[sid]);
    if sv.status == READY && req.LoadReq? {
      ProbeInRange(sv.core.value.geo, req.xq, req.nload);
    } else if sv.status == READY && req.SearchReq? {
      SearchSucceeds(sv.core.value, req.n, req.xqs, req.k, req.nprobe, req.requireAll);
    }
  }

  // ---------- every run ----------

  lemma {:induction false} RunKeepsSound(g: Regime, sv: Server, es: seq<Event>)
    requires Sound(g, sv) && Legal(g, sv, es)
    ensures Sound(g, Run(g, sv, es))
    decreases |es|
  {
    if es != [] {
      StepKeepsSound(g, sv, es[0]);
      RunKeepsSound(g, Step(sv, es[0]), es[1..]);
    }
  }

  /** After any run of any sessions from boot: no command has run on a null core; the core, if
      there is one, is coherent; with new ids in every ADD no assert has failed and no id is
      registered twice; and with a faithful database the core holds what the database holds. */
  lemma ReachableServersAreSound(g: Regime, es: seq<Event>)
    requires Legal(g, Boot(), es)
    ensures var sv := Run(g, Boot(), es);
            && Sound(g, sv)
            && sv.health != NullCore
            && (g.newIds ==> sv.health != AssertFailed)
            && (sv.core.Some? ==> Coherent(sv.core.value) && (sv.core.value.trained <==> sv.status == READY))
  {
    RunKeepsSound(g, Boot(), es);
  }

  /** A READY server takes the line "TRAIN" again from any session that has nothing pending: the
      process stays up, and neither the core nor the status changes. */
  lemma RetrainIsAccepted(g: Regime, sv: Server, sid: nat, word: Bytes, learned: seq<Vec>)
    requires Sound(g, sv) && sv.health == Up && sv.status == READY && sid !in sv.pending
    requires word == [84, 82, 65, 73, 78] && sv.core.Some? && |learned| == sv.core.value.nCells
    ensures var es := [Accept(sid, word), Execute(sid, TrainReq(learned))];
            Legal(g, sv, es) && Run(g, sv, es) == sv
  {
    AcceptanceTable(word);
    RetrainChangesNothing(g, sv, sid, word, learned);
  }

  lemma RetrainChangesNothing(g: Regime, sv: Server, sid: nat, word: Bytes, learned: seq<Vec>)
    requires Sound(g, sv) && sv.health == Up && sv.status == READY && sid !in sv.pending
    requires AcceptedAs(READY, word) == Some(TRAIN) && sv.core.Some? && |learned| == sv.core.value.nCells
    ensures var es := [Accept(sid, word), Execute(sid, TrainReq(learned))];
            Legal(g, sv, es) && Run(g, sv, es) == sv
  {
    TrainIsSticky(sv.core.value, learned);
    TwoSteps(g, sv, Accept(sid, word), Execute(sid, TrainReq(learned)));
    assert sv.pending[sid := Accepted(TRAIN, sv.inits)] - {sid} == sv.pending;
  }

  lemma TwoSteps(g: Regime, sv: Server, a: Event, b: Event)
    requires LegalEvent(g, sv, a) && LegalEvent(g, Step(sv, a), b)
    ensures Legal(g, sv, [a, b]) && Run(g, sv, [a, b]) == Step(Step(sv, a), b)
  {
    assert [a, b][1..] == [b] && [b][1..] == [];
    var u := Step(sv, a);
    assert Legal(g, Step(u, b), []);
    assert Legal(g, u, [b]) && Run(g, u, [b]) == Step(u, b);
  }

  // ---------- interleaving between acceptance and execution ----------

  /** Executing a command that needs training, with anything to do, faults exactly when the
      status is INITIALIZED. */
  lemma UntrainedIffInitialized(g: Regime, sv: Server, sid: nat, req: Request)
    requires Sound(g, sv) && LegalEvent(g, sv, Execute(sid, req)) && !req.InitializeReq? && !req.TrainReq?
    ensures Step(sv, Execute(sid, req)).health == Untrained <==> sv.status == INITIALIZED && Iterates(req)
    ensures sv.pending[sid].inits == sv.inits ==> sv.status == READY
  {
    assert PendingSound(sv, sv.pending[sid]);
  }

  ghost predicate Initializes(e: Event) {
    e.Execute? && e.req.InitializeReq?
  }

  lemma {:induction false} InitsCounted(g: Regime, sv: Server, es: seq<Event>)
    requires Legal(g, sv, es)
    ensures Run(g, sv, es).inits >= sv.inits
    ensures Run(g, sv, es).inits > sv.inits ==> exists i :: 0 <= i < |es| && Initializes(es[i])
    decreases |es|
  {
    if es != [] {
      InitsCounted(g, Step(sv, es[0]), es[1..]);
      if Initializes(es[0]) {
      } else if Run(g, sv, es).inits > sv.inits {
        var i :| 0 <= i < |es[1..]| && Initializes(es[1..][i]);
        assert Initializes(es[i + 1]);
      }
    }
  }

  /** The accepted command of a session is there until the session itself executes. */
  lemma {:induction false} PendingStays(g: Regime, sv: Server, es: seq<Event>, sid: nat)
    requires Legal(g, sv, es) && sid in sv.pending
    requires forall i | 0 <= i < |es| && es[i].Execute? :: es[i].sid != sid
    ensures sid in Run(g, sv, es).pending && Run(g, sv, es).pending[sid] == sv.pending[sid]
    decreases |es|
  {
    if es != [] {
      assert es[0].Execute? ==> es[0].sid != sid;
      forall i | 0 <= i < |es[1..]| && es[1..][i].Execute?
        ensures es[1..][i].sid != sid
      {
        assert es[1..][i] == es[i + 1];
      }
      PendingStays(g, Step(sv, es[0]), es[1..], sid);
    }
  }

  /** If a SEARCH, ADD, LOAD or EVICT finds an untrained core, then between its acceptance and
      its execution another session executed an INITIALIZE. */
  lemma UntrainedOnlyAfterAnothersInitialize(g: Regime, sv: Server, sid: nat, word: Bytes, es: seq<Event>, req: Request)
    requires Sound(g, sv) && LegalEvent(g, sv, Accept(sid, word)) && AcceptedAs(sv.status, word).Some?
    requires Legal(g, Step(sv, Accept(sid, word)), es)
    requires forall i | 0 <= i < |es| && es[i].Execute? :: es[i].sid != sid
    requires LegalEvent(g, Run(g, Step(sv, Accept(sid, word)), es), Execute(sid, req))
    requires Step(Run(g, Step(sv, Accept(sid, word)), es), Execute(sid, req)).health == Untrained
    ensures exists i :: 0 <= i < |es| && Initializes(es[i]) && es[i].sid != sid
  {
    var accepted := Step(sv, Accept(sid, word));
    var now := Run(g, accepted, es);
    StepKeepsSound(g, sv, Accept(sid, word));
    RunKeepsSound(g, accepted, es);
    PendingStays(g, accepted, es, sid);
    UntrainedIffInitialized(g, now, sid, req);
    InitsCounted(g, accepted, es);
    var i :| 0 <= i < |es| && Initializes(es[i]);
    assert es[i].sid != sid;
  }

  /** And it does happen: a pending SEARCH of any READY server finds an untrained core when
      another session gets an INITIALIZE accepted and executed first. */
  lemma AnothersInitializeBreaksSearch(g: Regime, sv: Server, sid: nat, other: nat, init: Request, search: Request)
    requires Sound(g, sv) && sv.health == Up && sv.status == READY
    requires sid in sv.pending && sv.pending[sid].cmd == SEARCH && other !in sv.pending
    requires init.InitializeReq? && search.SearchReq? && search.n >= 1
    requires Owed(Blank(init.d, init.nCells, init.coarse, init.fine), search)
    ensures var es := [Accept(other, WordOf(INITIALIZE)), Execute(other, init)];
            && Legal(g, sv, es)
            && LegalEvent(g, Run(g, sv, es), Execute(sid, search))
            && Step(Run(g, sv, es), Execute(sid, search)).health == Untrained
  {
    OneAnswer(sv.status, WordOf(INITIALIZE), Some(INITIALIZE));
    TwoSteps(g, sv, Accept(other, WordOf(INITIALIZE)), Execute(other, init));
  }

  // ---------- between two INITIALIZEs ----------

  function Level(s: Status): nat {
    match s
    case UNINITIALIZED => 0
    case INITIALIZED => 1
    case TRAINING => 2
    case READY => 3
  }

  /** What only INITIALIZE can take back: the status, training with all routing, and every
      numeric id given out. */
  ghost predicate Continues(s: Server, t: Server) {
    && Level(s.status) <= Level(t.status)
    && (s.core.Some? ==> t.core.Some? && CoreContinues(s.core.value, t.core.value))
  }

  lemma StepContinues(g: Regime, sv: Server, e: Event)
    requires Sound(g, sv) && LegalEvent(g, sv, e) && !Initializes(e)
    ensures Continues(sv, Step(sv, e))
  {
    if e.Execute? {
      assert PendingSound(sv, sv.pending[e.sid]);
      if e.req.TrainReq? || sv.core.value.trained {
        OnCoreContinues(sv.core.value, e.req);
      }
    }
  }

  ghost predicate CoreContinues(a: State, b: State) {
    && b.nCells == a.nCells && b.d == a.d
    && (a.trained ==> b.trained && b.geo == a.geo)
    && a.nextId <= b.nextId
    && forall id | id in a.idMap :: id in b.idMap && b.idMap[id] == a.idMap[id]
  }

  lemma OnCoreContinues(s: State, req: Request)
    requires Coherent(s) && Owed(s, req) && !req.InitializeReq? && (req.TrainReq? || s.trained)
    ensures CoreContinues(s, OnCore(s, req).state)
  {
    match req
    case LoadReq(xq, nload, db) =>
      ProbeInRange(s.geo, xq, nload);
      LoadCellsKeeps(s, Probe(s.geo, xq, nload), db);
    case EvictReq(xq, nevict) =>
      ProbeInRange(s.geo, xq, nevict);
      EvictCellsKeeps(s, Probe(s.geo, xq, nevict));
    case AddReq(ids, embeddings) =>
      AddKeepsNumbers(s, ids, RowsOf(embeddings, s.d, |ids|));
    case _ =>
  }

  /** Over any run without INITIALIZE the status only rises, training is sticky, and no numeric
      id ever changes. */
  lemma {:induction false} BetweenInitializes(g: Regime, sv: Server, es: seq<Event>)
    requires Sound(g, sv) && Legal(g, sv, es) && forall i | 0 <= i < |es| :: !Initializes(es[i])
    ensures Continues(sv, Run(g, sv, es))
    ensures sv.status == READY ==> Run(g, sv, es).status == READY
    ensures sv.status == INITIALIZED ==> Run(g, sv, es).status in {INITIALIZED, READY}
    decreases |es|
  {
    if es != [] {
      StepContinues(g, sv, es[0]);
      StepKeepsSound(g, sv, es[0]);
      assert forall i | 0 <= i < |es[1..]| :: es[1..][i] == es[i + 1];
      BetweenInitializes(g, Step(sv, es[0]), es[1..]);
      ContinuesThrough(sv, Step(sv, es[0]), Run(g, sv, es));
    }
  }

  lemma ContinuesThrough(s: Server, u: Server, t: Server)
    requires Continues(s, u) && Continues(u, t)
    ensures Continues(s, t)
  {
  }

  // ---------- hit and miss guarantees over runs ----------

  /** The event neither resets the core nor evicts any of the cells. */
  ghost predicate Spares(geo: Geometry, cells: set<nat>, e: Event) {
    e.Execute? ==>
      && !e.req.InitializeReq?
      && (e.req.EvictReq? && e.req.nevict <= |geo.centroids| ==>
            forall c | c in Probe(geo, e.req.xq, e.req.nevict) :: c !in cells)
  }

  /** The event neither resets the core nor loads the cell. */
  ghost predicate Withholds(geo: Geometry, c: nat, e: Event) {
    e.Execute? ==>
      && !e.req.InitializeReq?
      && (e.req.LoadReq? && e.req.nload <= |geo.centroids| ==> c !in Probe(geo, e.req.xq, e.req.nload))
  }

  ghost predicate Trained(sv: Server, geo: Geometry) {
    sv.core.Some? && WellFormed(sv.core.value) && sv.core.value.trained && sv.core.value.geo == geo
  }

  ghost predicate Holds(sv: Server, cells: set<nat>) {
    && sv.core.Some? && WellFormed(sv.core.value)
    && forall c | c in cells :: c < sv.core.value.nCells && Resident(sv.core.value, c)
  }

  ghost predicate Lacks(sv: Server, c: nat) {
    sv.core.Some? && WellFormed(sv.core.value) && c < sv.core.value.nCells && !Resident(sv.core.value, c)
  }

  lemma StepKeepsCells(g: Regime, sv: Server, e: Event, geo: Geometry, cells: set<nat>)
    requires Sound(g, sv) && LegalEvent(g, sv, e) && Trained(sv, geo) && Holds(sv, cells) && Spares(geo, cells, e)
    ensures Trained(Step(sv, e), geo) && Holds(Step(sv, e), cells)
  {
    if e.Execute? {
      var s := sv.core.value;
      match e.req
      case LoadReq(xq, nload, db) =>
        ProbeInRange(s.geo, xq, nload);
        LoadCellsKeeps(s, Probe(s.geo, xq, nload), db);
        assert forall c | c in cells :: SameCell(s, Step(sv, e).core.value, c);
      case EvictReq(xq, nevict) =>
        ProbeInRange(s.geo, xq, nevict);
        EvictCellsKeeps(s, Probe(s.geo, xq, nevict));
        assert forall c | c in cells :: SameCell(s, Step(sv, e).core.value, c);
      case AddReq(ids, embeddings) =>
        AddKeepsResidence(s, ids, RowsOf(embeddings, s.d, |ids|));
      case _ =>
    }
  }

  lemma {:induction false} AddKeepsResidence(s: State, ids: seq<Bytes>, vs: seq<Vec>)
    requires WellFormed(s) && s.trained && s.nCells > 0 && |ids| == |vs|
    ensures AddRows(s, ids, vs).residence == s.residence
    decreases |ids|
  {
    if ids != [] {
      NearestInRange(s.geo, vs[0]);
      AddKeepsResidence(AddOne(s, ids[0], vs[0]), ids[1..], vs[1..]);
    }
  }

  lemma StepKeepsAbsence(g: Regime, sv: Server, e: Event, geo: Geometry, c: nat)
    requires Sound(g, sv) && LegalEvent(g, sv, e) && Trained(sv, geo) && Lacks(sv, c) && Withholds(geo, c, e)
    ensures Trained(Step(sv, e), geo) && Lacks(Step(sv, e), c)
  {
    if e.Execute? {
      var s := sv.core.value;
      match e.req
      case LoadReq(xq, nload, db) =>
        ProbeInRange(s.geo, xq, nload);
        LoadCellsKeeps(s, Probe(s.geo, xq, nload), db);
        assert SameCell(s, Step(sv, e).core.value, c);
      case EvictReq(xq, nevict) =>
        ProbeInRange(s.geo, xq, nevict);
        EvictCellsKeeps(s, Probe(s.geo, xq, nevict));
        assert c !in Probe(s.geo, xq, nevict) ==> SameCell(s, Step(sv, e).core.value, c);
      case AddReq(ids, embeddings) =>
        AddKeepsResidence(s, ids, RowsOf(embeddings, s.d, |ids|));
      case _ =>
    }
  }

  lemma {:induction false} RunKeepsCells(g: Regime, sv: Server, es: seq<Event>, geo: Geometry, cells: set<nat>)
    requires Sound(g, sv) && Legal(g, sv, es) && Trained(sv, geo) && Holds(sv, cells)
    requires forall i | 0 <= i < |es| :: Spares(geo, cells, es[i])
    ensures Trained(Run(g, sv, es), geo) && Holds(Run(g, sv, es), cells)
    decreases |es|
  {
    if es != [] {
      StepKeepsCells(g, sv, es[0], geo, cells);
      StepKeepsSound(g, sv, es[0]);
      assert forall i | 0 <= i < |es[1..]| :: es[1..][i] == es[i + 1];
      RunKeepsCells(g, Step(sv, es[0]), es[1..], geo, cells);
    }
  }

  lemma {:induction false} RunKeepsAbsence(g: Regime, sv: Server, es: seq<Event>, geo: Geometry, c: nat)
    requires Sound(g, sv) && Legal(g, sv, es) && Trained(sv, geo) && Lacks(sv, c)
    requires forall i | 0 <= i < |es| :: Withholds(geo, c, es[i])
    ensures Trained(Run(g, sv, es), geo) && Lacks(Run(g, sv, es), c)
    decreases |es|
  {
    if es != [] {
      StepKeepsAbsence(g, sv, es[0], geo, c);
      StepKeepsSound(g, sv, es[0]);
      assert forall i | 0 <= i < |es[1..]| :: es[1..][i] == es[i + 1];
      RunKeepsAbsence(g, Step(sv, es[0]), es[1..], geo, c);
    }
  }

  ghost function CellSet(cells: seq<nat>): set<nat> {
    set c | c in cells
  }

  /** After a LOAD of xq that the database answered, every later search of xq that probes no
      more cells hits, whatever any session does in between short of evicting one of those
      cells or INITIALIZE. */
  lemma LoadGuaranteesHits(g: Regime, sv: Server, sid: nat, xq: Vec, nload: nat, db: nat -> DbReply, es: seq<Event>,
                           nprobe: nat, requireAll: bool)
    requires Sound(g, sv) && LegalEvent(g, sv, Execute(sid, LoadReq(xq, nload, db))) && sv.status == READY
    requires CellsOf(sv.core.value, Probe(sv.core.value.geo, xq, nload))
    requires LoadCells(sv.core.value, Probe(sv.core.value.geo, xq, nload), db).ending == Done
    requires Legal(g, Step(sv, Execute(sid, LoadReq(xq, nload, db))), es)
    requires forall i | 0 <= i < |es| :: Spares(sv.core.value.geo, CellSet(Probe(sv.core.value.geo, xq, nload)), es[i])
    requires 1 <= nprobe <= nload
    ensures var t := Run(g, Step(sv, Execute(sid, LoadReq(xq, nload, db))), es);
            && Trained(t, sv.core.value.geo) && nprobe <= t.core.value.nCells
            && IsHit(t.core.value, xq, nprobe, requireAll)
  {
    var s := sv.core.value;
    var e := Execute(sid, LoadReq(xq, nload, db));
    var cells := Probe(s.geo, xq, nload);
    ProbeInRange(s.geo, xq, nload);
    LoadCellsKeeps(s, cells, db);
    StepKeepsSound(g, sv, e);
    var u := Step(sv, e);
    assert Holds(u, CellSet(cells)) by {
      forall c | c in CellSet(cells)
        ensures c < u.core.value.nCells && Resident(u.core.value, c)
      {
        var i :| 0 <= i < |cells| && cells[i] == c;
      }
    }
    RunKeepsCells(g, u, es, s.geo, CellSet(cells));
    RunKeepsSound(g, u, es);
    var t := Run(g, u, es).core.value;
    HitProbesResidents(t, xq, nprobe);
    forall i | 0 <= i < nprobe
      ensures Resident(t, Probe(t.geo, xq, nprobe)[i])
    {
      assert Probe(t.geo, xq, nprobe)[i] == cells[i];
      assert cells[i] in cells;
    }
  }

  /** After an EVICT of xq, every later search of xq misses until its nearest cell is loaded
      again. */
  lemma EvictGuaranteesMisses(g: Regime, sv: Server, sid: nat, xq: Vec, nevict: nat, es: seq<Event>,
                              nprobe: nat, requireAll: bool)
    requires Sound(g, sv) && LegalEvent(g, sv, Execute(sid, EvictReq(xq, nevict))) && sv.status == READY && nevict >= 1
    requires Legal(g, Step(sv, Execute(sid, EvictReq(xq, nevict))), es)
    requires forall i | 0 <= i < |es| :: Withholds(sv.core.value.geo, Nearest(sv.core.value.geo, xq), es[i])
    requires 1 <= nprobe <= sv.core.value.nCells
    ensures var t := Run(g, Step(sv, Execute(sid, EvictReq(xq, nevict))), es);
            && Trained(t, sv.core.value.geo) && nprobe <= t.core.value.nCells
            && !IsHit(t.core.value, xq, nprobe, requireAll)
  {
    var s := sv.core.value;
    var e := Execute(sid, EvictReq(xq, nevict));
    var cells := Probe(s.geo, xq, nevict);
    ProbeInRange(s.geo, xq, nevict);
    EvictCellsKeeps(s, cells);
    StepKeepsSound(g, sv, e);
    var u := Step(sv, e);
    assert cells[0] in cells && cells[0] == Nearest(s.geo, xq);
    RunKeepsAbsence(g, u, es, s.geo, Nearest(s.geo, xq));
    RunKeepsSound(g, u, es);
    HitProbesResidents(Run(g, u, es).core.value, xq, nprobe);
  }

  /** In every reachable state of every regime, repeated ids and drifted embeddings included, the
      first query of a search (any query when d is 1) that hits under require_all is answered
      exactly as this core answers it with every other cell loaded, from any conforming database. */
  lemma ReachableHitsAnswerLikeFullIndex(g: Regime, es: seq<Event>, sid: nat, n: nat, xqs: Vec, i: nat, k: nat,
                                         nprobe: nat, db: nat -> DbReply)
    requires Legal(g, Boot(), es)
    requires LegalEvent(g, Run(g, Boot(), es), Execute(sid, SearchReq(n, xqs, k, nprobe, true)))
    requires Run(g, Boot(), es).status == READY && i < n
    ensures Run(g, Boot(), es).core.Some?
    ensures var s := Run(g, Boot(), es).core.value;
            && Coherent(s) && s.trained && 1 <= nprobe <= s.nCells
            && (DbConforms(s, db) && (i == 0 || s.d == 1) && IsHit(s, Row(xqs, s.d, i), nprobe, true) ==>
                  var t := FullIndex(s, db).state;
                  && Coherent(t) && SameRegistry(s, t)
                  && Query(s, Row(xqs, s.d, i), Window(xqs, s.d, i), k, nprobe, true)
                     == Query(t, Row(xqs, s.d, i), Row(xqs, s.d, i), k, nprobe, true))
  {
    ReachableServersAreSound(g, es);
    var s := Run(g, Boot(), es).core.value;
    if DbConforms(s, db) && (i == 0 || s.d == 1) {
      FirstQueryAnswersLikeFullIndex(s, db, xqs, n, i, k, nprobe);
    }
  }

  /** In every reachable state of every regime a SEARCH changes nothing, and a hit returns the
      record stored under each label: the k best stored records in reach of the slice searched,
      each once. Where the database holds what was ADDed, record j is the database's record of
      the id whose number is label j. */
  lemma ReachableHitsReturnRecords(g: Regime, es: seq<Event>, sid: nat, n: nat, xqs: Vec, i: nat, k: nat,
                                   nprobe: nat, requireAll: bool)
    requires Legal(g, Boot(), es)
    requires LegalEvent(g, Run(g, Boot(), es), Execute(sid, SearchReq(n, xqs, k, nprobe, requireAll)))
    requires Run(g, Boot(), es).status == READY && i < n
    ensures var sv := Run(g, Boot(), es);
            var t := Step(sv, Execute(sid, SearchReq(n, xqs, k, nprobe, requireAll)));
            t.health == Up && t.status == READY && t.core == sv.core && sv.core.Some?
    ensures var s := Run(g, Boot(), es).core.value;
            && Coherent(s) && s.trained && 1 <= nprobe <= s.nCells
            && (IsHit(s, Row(xqs, s.d, i), nprobe, requireAll) ==>
                  var w := Window(xqs, s.d, i);
                  var hits, a := Scan(s, w, k, nprobe), Query(s, Row(xqs, s.d, i), w, k, nprobe, requireAll);
                  && a.Found? && |a.records| == |hits| <= k
                  && (forall j | 0 <= j < |hits| :: hits[j].num in s.dataMap && a.records[j] == s.dataMap[hits[j].num])
                  && NearestStored(s, w, k, nprobe, a.records)
                  && NoRepeats(a.records)
                  && (g.truth.Some? ==>
                        forall j, id | 0 <= j < |hits| && id in s.idMap && s.idMap[id] == hits[j].num ::
                          a.records[j] == g.truth.value(id)))
  {
    ReachableServersAreSound(g, es);
    var sv := Run(g, Boot(), es);
    var s := sv.core.value;
    SearchSucceeds(s, n, xqs, k, nprobe, requireAll);
    var q, w := Row(xqs, s.d, i), Window(xqs, s.d, i);
    if IsHit(s, q, nprobe, requireAll) {
      HitReturnsNearestStored(s, q, w, k, nprobe, requireAll);
      var rs := Query(s, q, w, k, nprobe, requireAll).records;
      RanksDiffer(s, w, k, nprobe, rs);
      if g.truth.Some? {
        HitReturnsTruth(s, g.truth.value, w, k, nprobe, Scan(s, w, k, nprobe), rs);
      }
    }
  }

  lemma SearchSucceeds(s: State, n: nat, xqs: Vec, k: nat, nprobe: nat, requireAll: bool)
    requires Coherent(s) && s.trained && Owed(s, SearchReq(n, xqs, k, nprobe, requireAll))
    ensures OnCore(s, SearchReq(n, xqs, k, nprobe, requireAll)) == Outcome(s, Done)
  {
    forall i: nat | i < n
      ensures Fetchable(s, Scan(s, Window(xqs, s.d, i), k, nprobe))
    {
      ScanIsStored(s, Window(xqs, s.d, i), k, nprobe);
    }
  }

  /** In every reachable state of a faithful regime, with or without require_all, a hit is the k
      best of the snapshots of the resident ones among the cells nearest to the slice searched. */
  lemma ReachableHitsAnswerSnapshots(newIds: bool, truth: Collection, es: seq<Event>, sid: nat,
                                     n: nat, xqs: Vec, i: nat, k: nat, nprobe: nat, requireAll: bool)
    requires Legal(Regime(newIds, Some(truth)), Boot(), es)
    requires LegalEvent(Regime(newIds, Some(truth)), Run(Regime(newIds, Some(truth)), Boot(), es),
                        Execute(sid, SearchReq(n, xqs, k, nprobe, requireAll)))
    requires Run(Regime(newIds, Some(truth)), Boot(), es).status == READY && i < n
    ensures Run(Regime(newIds, Some(truth)), Boot(), es).core.Some?
    ensures var s := Run(Regime(newIds, Some(truth)), Boot(), es).core.value;
            var q, w := Row(xqs, s.d, i), Window(xqs, s.d, i);
            && Coherent(s) && s.trained && 1 <= nprobe <= s.nCells
            && IsBest(Scan(s, w, k, nprobe), SnapshotHits(s, truth, w, Probe(s.geo, w, nprobe)), k)
            && (IsHit(s, q, nprobe, requireAll) ==>
                  && Fetchable(s, Scan(s, w, k, nprobe))
                  && Query(s, q, w, k, nprobe, requireAll) == Found(Fetch(s, Scan(s, w, k, nprobe))))
  {
    var g := Regime(newIds, Some(truth));
    ReachableServersAreSound(g, es);
    var s := Run(g, Boot(), es).core.value;
    ScanAnswersSnapshot(s, truth, Window(xqs, s.d, i), k, nprobe);
    ScanIsStored(s, Window(xqs, s.d, i), k, nprobe);
  }

  /** In every reachable state of a faithful regime, a search of q that scans nprobe cells returns
      the k best of the whole registered collection in those cells, for every k, exactly when
      each holds every id registered in it. With new ids in every ADD, a require_all hit can be
      judged by the counters: no probed cell has grown since it was loaded. */
  lemma ReachableHitsAnswerCollectionIff(newIds: bool, truth: Collection, es: seq<Event>, q: Vec, nprobe: nat)
    requires Legal(Regime(newIds, Some(truth)), Boot(), es)
    ensures var core := Run(Regime(newIds, Some(truth)), Boot(), es).core;
            core.Some? ==>
              var s := core.value;
              && Coherent(s)
              && (s.trained && 1 <= nprobe <= s.nCells ==>
                    var cells := Probe(s.geo, q, nprobe);
                    var whole := forall k: nat :: IsBest(Scan(s, q, k, nprobe), CollectionHits(s, truth, q, cells), k);
                    && (whole <==> forall c: nat | c < s.nCells && c in cells :: Fresh(s, c))
                    && (newIds && IsHit(s, q, nprobe, true) ==>
                          (whole <==> forall c: nat | c < s.nCells && c in cells ::
                                        s.residence[c] == |s.idsByCell[c]|)))
  {
    var g := Regime(newIds, Some(truth));
    ReachableServersAreSound(g, es);
    var sv := Run(g, Boot(), es);
    if sv.core.Some? && sv.core.value.trained && 1 <= nprobe <= sv.core.value.nCells {
      var s := sv.core.value;
      ScanAnswersCollectionIff(s, truth, q, nprobe);
      if newIds && IsHit(s, q, nprobe, true) {
        HitAnswersCollectionIff(s, truth, q, nprobe);
      }
    }
  }

  /** In every reachable state of a faithful regime, a LOAD the database answers ends the process
      exactly when an absent cell it asks for has an id registered twice. */
  lemma ReachableLoadsAbortIff(newIds: bool, truth: Collection, es: seq<Event>, sid: nat, xq: Vec, nload: nat,
                               db: nat -> DbReply)
    requires Legal(Regime(newIds, Some(truth)), Boot(), es)
    requires LegalEvent(Regime(newIds, Some(truth)), Run(Regime(newIds, Some(truth)), Boot(), es),
                        Execute(sid, LoadReq(xq, nload, db)))
    requires Run(Regime(newIds, Some(truth)), Boot(), es).status == READY && forall c: nat :: db(c).Rows?
    ensures var sv := Run(Regime(newIds, Some(truth)), Boot(), es);
            && sv.core.Some? && WellFormed(sv.core.value)
            && nload <= |sv.core.value.geo.centroids|
            && CellsOf(sv.core.value, Probe(sv.core.value.geo, xq, nload))
            && (Step(sv, Execute(sid, LoadReq(xq, nload, db))).health == AssertFailed
                <==> !Sane(sv.core.value, Probe(sv.core.value.geo, xq, nload)))
  {
    var g := Regime(newIds, Some(truth));
    ReachableServersAreSound(g, es);
    var s := Run(g, Boot(), es).core.value;
    ProbeInRange(s.geo, xq, nload);
    LoadCellsAbortIff(s, Probe(s.geo, xq, nload), db, truth);
  }

  /** In every reachable state of a faithful regime, also after ids were registered again, a
      resident cell holds, counted with multiplicity, the numbers of the first
      residence_statuses[c] ids registered in it, and a cell that is not resident holds nothing. */
  lemma ReachableCellsHoldSnapshots(newIds: bool, truth: Collection, es: seq<Event>, c: nat)
    requires Legal(Regime(newIds, Some(truth)), Boot(), es)
    ensures var sv := Run(Regime(newIds, Some(truth)), Boot(), es);
            sv.core.Some? && c < sv.core.value.nCells ==>
              var s := sv.core.value;
              && Coherent(s) && (forall id | id in Snapshot(s, c) :: id in s.idMap)
              && multiset(ListNums(s.lists[c])) == multiset(NumsOfIds(s.idMap, Snapshot(s, c)))
              && (if Resident(s, c) then Snapshot(s, c) == s.idsByCell[c][..s.residence[c]] else s.lists[c] == [])
  {
    var g := Regime(newIds, Some(truth));
    ReachableServersAreSound(g, es);
    var sv := Run(g, Boot(), es);
    if sv.core.Some? && c < sv.core.value.nCells {
      SnapshotPrefix(sv.core.value, c, truth);
    }
  }

  /** In every reachable state of every regime, drifted embeddings included, a cell holds, counted
      with multiplicity, no more than the numbers of those ids. */
  lemma ReachableCellsStayWithinSnapshots(g: Regime, es: seq<Event>, c: nat)
    requires Legal(g, Boot(), es)
    ensures var sv := Run(g, Boot(), es);
            sv.core.Some? && c < sv.core.value.nCells ==>
              var s := sv.core.value;
              && Coherent(s) && (forall id | id in Snapshot(s, c) :: id in s.idMap)
              && multiset(ListNums(s.lists[c])) <= multiset(NumsOfIds(s.idMap, Snapshot(s, c)))
  {
    ReachableServersAreSound(g, es);
    var sv := Run(g, Boot(), es);
    if sv.core.Some? && c < sv.core.value.nCells {
      ListWithinSnapshot(sv.core.value, c);
    }
  }
}

/** The whole server process: connections opened, bytes arriving on them, handlers running. A
    handler that reads a command line asks the shared cache, one that completes the arguments
    executes them on it; all other steps are a session's own. */
module World {
  import opened Bytes
  import opened Commands
  import opened Args
  import opened CoreState
  import opened Framing
  import opened Server
  import opened Sessions

  datatype Process = Process(server: Server, sessions: map<nat, Sess>)

  /** Arrive brings bytes for the pending read. Handle runs the handler of a session whose read is
      complete; req is what it executes, if it completes a command: the decoded arguments with the
      environment's part. */
  datatype Happening = Open(sid: nat) | Arrive(sid: nat, piece: Bytes) | Handle(sid: nat, req: Request)

  function Start(): Process {
    Process(Boot(), map[])
  }

  /** No handler has thrown, failed an assert or run out of bytes. */
  ghost predicate Alive(p: Process) {
    p.server.health == Up && forall sid | sid in p.sessions :: p.sessions[sid].phase != Dead
  }

  /** The session after its handler has run, the cache being in its present status. */
  ghost function Handled(p: Process, sid: nat): Sess
    requires sid in p.sessions && Ready(p.sessions[sid])
  {
    Fire(_ => p.server.status, p.sessions[sid])
  }

  /** The handler completes a command: its arguments are the last ones decoded. */
  ghost predicate Completes(p: Process, sid: nat)
    requires sid in p.sessions && Ready(p.sessions[sid])
  {
    p.sessions[sid].phase.AwaitDynamic? && Handled(p, sid).phase != Dead
  }

  ghost predicate Possible(g: Regime, p: Process, h: Happening) {
    && Alive(p)
    && match h
       case Open(sid) => sid !in p.sessions
       case Arrive(sid, piece) => sid in p.sessions && !Ready(p.sessions[sid]) && Fits(p.sessions[sid], piece)
       case Handle(sid, req) =>
         && sid in p.sessions && Ready(p.sessions[sid])
         && (Completes(p, sid) ==>
               var done := Handled(p, sid).done;
               && done != [] && MadeOf(req, done[|done| - 1])
               && (p.server.core.Some? ==>
                     && WellFormed(p.server.core.value)
                     && Owed(p.server.core.value, req) && Admits(g, p.server.core.value, req)))
  }

  /** What the happening is to the shared cache. */
  ghost function Emits(p: Process, h: Happening): seq<Event> {
    if h.Handle? && h.sid in p.sessions && Ready(p.sessions[h.sid]) then
      var s := p.sessions[h.sid];
      if s.phase == AwaitCommand then [Accept(h.sid, StripCR(GetLine(s.buf).0))]
      else if Completes(p, h.sid) then [Execute(h.sid, h.req)]
      else []
    else []
  }

  ghost function Next(g: Regime, p: Process, h: Happening): Process
    requires Possible(g, p, h)
  {
    match h
    case Open(sid) => p.(sessions := p.sessions[sid := FRESH])
    case Arrive(sid, piece) =>
      var s := p.sessions[sid];
      p.(sessions := p.sessions[sid := s.(buf := s.buf + piece)])
    case Handle(sid, _) =>
      var es := Emits(p, h);
      Process(if es != [] && Enabled(p.server, es[0]) then Step(p.server, es[0]) else p.server,
              p.sessions[sid := Handled(p, sid)])
  }

  ghost predicate Lawful(g: Regime, p: Process, hs: seq<Happening>)
    decreases |hs|
  {
    hs == [] || (Possible(g, p, hs[0]) && Lawful(g, Next(g, p, hs[0]), hs[1..]))
  }

  ghost function Ended(g: Regime, p: Process, hs: seq<Happening>): Process
    requires Lawful(g, p, hs)
    decreases |hs|
  {
    if hs == [] then p else Ended(g, Next(g, p, hs[0]), hs[1..])
  }

  /** The run of the server inside a run of the process. */
  ghost function Inside(g: Regime, p: Process, hs: seq<Happening>): seq<Event>
    requires Lawful(g, p, hs)
    decreases |hs|
  {
    if hs == [] then [] else Emits(p, hs[0]) + Inside(g, Next(g, p, hs[0]), hs[1..])
  }

  /** The bytes that arrive on one connection. */
  function Arrived(hs: seq<Happening>, sid: nat): Bytes {
    if hs == [] then []
    else Brought(hs[0], sid) + Arrived(hs[1..], sid)
  }

  // ---------- sessions and cache stay linked ----------

  /** A session waits for arguments exactly of the command the cache has accepted from it. */
  ghost predicate LinkedSession(sv: Server, sid: nat, s: Sess) {
    match s.phase
    case AwaitCommand => sid !in sv.pending
    case AwaitStatic(c) => sid in sv.pending && sv.pending[sid].cmd == c
    case AwaitDynamic(h) => sid in sv.pending && sv.pending[sid].cmd == CommandOfHeader(h)
    case Dead => true
  }

  ghost predicate Linked(p: Process) {
    && (forall sid | sid in p.sessions :: LinkedSession(p.server, sid, p.sessions[sid]))
    && (forall sid | sid in p.server.pending :: sid in p.sessions)
  }

  /** What a handler asks of the cache can be asked. */
  lemma EmitsLegal(g: Regime, p: Process, h: Happening)
    requires Linked(p) && Possible(g, p, h) && Emits(p, h) != []
    ensures LegalEvent(g, p.server, Emits(p, h)[0]) && |Emits(p, h)| == 1
  {
    var s := p.sessions[h.sid];
    assert LinkedSession(p.server, h.sid, s);
    if s.phase.AwaitDynamic? {
      DynamicKeepsCommand(s.phase.header, s.buf);
    }
  }

  lemma NextLinked(g: Regime, p: Process, h: Happening)
    requires Linked(p) && Possible(g, p, h)
    ensures Linked(Next(g, p, h))
  {
    var q := Next(g, p, h);
    if Emits(p, h) != [] {
      EmitsLegal(g, p, h);
      StepPending(g, p.server, Emits(p, h)[0], h.sid);
      OthersPending(g, p, h);
    }
    if h.Handle? {
      HandledLinked(g, p, h);
    }
    forall sid | sid in q.sessions
      ensures LinkedSession(q.server, sid, q.sessions[sid])
    {
      assert sid in p.sessions ==> LinkedSession(p.server, sid, p.sessions[sid]);
    }
  }

  lemma OthersPending(g: Regime, p: Process, h: Happening)
    requires Linked(p) && Possible(g, p, h) && Emits(p, h) != []
    ensures var q := Next(g, p, h);
            forall sid | sid != h.sid ::
              && (sid in q.server.pending <==> sid in p.server.pending)
              && (sid in p.server.pending ==> q.server.pending[sid] == p.server.pending[sid])
  {
    EmitsLegal(g, p, h);
  }

  lemma HandledLinked(g: Regime, p: Process, h: Happening)
    requires Linked(p) && Possible(g, p, h) && h.Handle?
    ensures LinkedSession(Next(g, p, h).server, h.sid, Handled(p, h.sid))
  {
    var s := p.sessions[h.sid];
    assert LinkedSession(p.server, h.sid, s);
    if Emits(p, h) != [] {
      EmitsLegal(g, p, h);
    }
    if s.phase.AwaitStatic? {
      StaticKeepsCommand(s.phase.cmd, s.buf);
    }
  }

  /** Every run of the process contains a legal run of the server, which takes the cache where the
      process takes it: every result about server runs is one about the process. */
  lemma {:induction false} ProcessRunsServer(g: Regime, p: Process, hs: seq<Happening>)
    requires Linked(p) && Lawful(g, p, hs)
    ensures Legal(g, p.server, Inside(g, p, hs)) && Run(g, p.server, Inside(g, p, hs)) == Ended(g, p, hs).server
    ensures Linked(Ended(g, p, hs))
    decreases |hs|
  {
    if hs != [] {
      var h, es, q := hs[0], Emits(p, hs[0]), Next(g, p, hs[0]);
      var rest := Inside(g, q, hs[1..]);
      NextLinked(g, p, h);
      ProcessRunsServer(g, q, hs[1..]);
      if es == [] {
        assert es + rest == rest;
      } else {
        EmitsLegal(g, p, h);
        assert (es + rest)[0] == es[0] && (es + rest)[1..] == rest;
      }
    }
  }

  // ---------- what is decoded is executed ----------

  ghost predicate AllMadeOf(reqs: seq<Request>, fs: seq<Args>) {
    |reqs| == |fs| && forall j | 0 <= j < |reqs| :: MadeOf(reqs[j], fs[j])
  }

  /** The commands a session has decoded. */
  ghost function DoneBy(p: Process, sid: nat): seq<Args> {
    if sid in p.sessions then p.sessions[sid].done else []
  }

  lemma NextDone(g: Regime, p: Process, h: Happening, sid: nat)
    requires Possible(g, p, h)
    ensures DoneBy(p, sid) <= DoneBy(Next(g, p, h), sid)
    ensures AllMadeOf(Carried(Emits(p, h), sid), DoneBy(Next(g, p, h), sid)[|DoneBy(p, sid)|..])
  {
    var es := Emits(p, h);
    assert es != [] ==> es[1..] == [];
    assert Carried([], sid) == [];
  }

  lemma {:induction false} CarriedAppend(a: seq<Event>, b: seq<Event>, sid: nat)
    ensures Carried(a + b, sid) == Carried(a, sid) + Carried(b, sid)
    decreases |a|
  {
    if a == [] {
      assert a + b == b;
    } else {
      assert (a + b)[1..] == a[1..] + b;
      CarriedAppend(a[1..], b, sid);
    }
  }

  /** In every run of the process each session executes exactly the commands it decodes, in order. */
  lemma {:induction false} DecodedIsExecuted(g: Regime, p: Process, hs: seq<Happening>, sid: nat)
    requires Lawful(g, p, hs)
    ensures DoneBy(p, sid) <= DoneBy(Ended(g, p, hs), sid)
    ensures AllMadeOf(Carried(Inside(g, p, hs), sid), DoneBy(Ended(g, p, hs), sid)[|DoneBy(p, sid)|..])
    decreases |hs|
  {
    if hs != [] {
      var q := Next(g, p, hs[0]);
      NextDone(g, p, hs[0], sid);
      DecodedIsExecuted(g, q, hs[1..], sid);
      CarriedAppend(Emits(p, hs[0]), Inside(g, q, hs[1..]), sid);
      JoinMade(DoneBy(p, sid), DoneBy(q, sid), DoneBy(Ended(g, p, hs), sid),
               Carried(Emits(p, hs[0]), sid), Carried(Inside(g, q, hs[1..]), sid));
    }
  }

  lemma JoinMade(a: seq<Args>, b: seq<Args>, c: seq<Args>, first: seq<Request>, second: seq<Request>)
    requires a <= b <= c && AllMadeOf(first, b[|a|..]) && AllMadeOf(second, c[|b|..])
    ensures a <= c && AllMadeOf(first + second, c[|a|..])
  {
    assert c[|a|..] == b[|a|..] + c[|b|..];
  }

  // ---------- what is sent is executed ----------

  /** The session is at its place in what its client sends, with unread still to come. */
  ghost predicate Placed(sessions: map<nat, Sess>, sid: nat, fs: seq<Args>, unread: Bytes) {
    if sid in sessions then Follows(sessions[sid], fs, unread) else unread == Stream(fs)
  }

  /** While the process is alive, a session is at its place in what its client sends, wherever the
      bytes are cut and whatever other sessions do. */
  lemma {:induction false} AliveMeansFollowing(g: Regime, p: Process, hs: seq<Happening>, sid: nat, fs: seq<Args>)
    requires Lawful(g, p, hs) && AllPackable(fs) && Placed(p.sessions, sid, fs, Arrived(hs, sid))
    ensures Alive(Ended(g, p, hs)) ==> Placed(Ended(g, p, hs).sessions, sid, fs, [])
    decreases |hs|
  {
    if hs != [] {
      var q := Next(g, p, hs[0]);
      if Alive(q) {
        NextFollows(g, p, hs[0], sid, fs, Arrived(hs[1..], sid));
        AliveMeansFollowing(g, q, hs[1..], sid, fs);
      } else {
        assert hs[1..] == [];
        assert Ended(g, p, hs) == Ended(g, q, []) == q;
      }
    }
  }

  /** The bytes a happening brings on one connection. */
  function Brought(h: Happening, sid: nat): Bytes {
    if h.Arrive? && h.sid == sid then h.piece else []
  }

  /** A happening changes the session it names, and no other. */
  lemma NextSessions(g: Regime, p: Process, h: Happening)
    requires Possible(g, p, h)
    ensures var t := match h
                     case Open(_) => FRESH
                     case Arrive(sid, piece) => p.sessions[sid].(buf := p.sessions[sid].buf + piece)
                     case Handle(sid, _) => Handled(p, sid);
            Next(g, p, h).sessions == p.sessions[h.sid := t]
    ensures h.Open? ==> h.sid !in p.sessions
    ensures h.Handle? && Alive(Next(g, p, h)) ==> Handled(p, h.sid).phase != Dead
  {
    if h.Handle? {
      assert Next(g, p, h).sessions[h.sid] == Handled(p, h.sid);
    }
  }

  lemma NextFollows(g: Regime, p: Process, h: Happening, sid: nat, fs: seq<Args>, unread: Bytes)
    requires Possible(g, p, h) && AllPackable(fs) && Alive(Next(g, p, h))
    requires Placed(p.sessions, sid, fs, Brought(h, sid) + unread)
    ensures Placed(Next(g, p, h).sessions, sid, fs, unread)
  {
    NextSessions(g, p, h);
    assert [] + unread == unread;
    if h.sid == sid {
      OwnFollows(g, p, h, fs, unread);
    }
  }

  lemma OwnFollows(g: Regime, p: Process, h: Happening, fs: seq<Args>, unread: Bytes)
    requires Possible(g, p, h) && AllPackable(fs) && (h.Handle? ==> Handled(p, h.sid).phase != Dead)
    requires Placed(p.sessions, h.sid, fs, Brought(h, h.sid) + unread)
    ensures h.Open? ==> Follows(FRESH, fs, unread)
    ensures h.Arrive? ==> Follows(p.sessions[h.sid].(buf := p.sessions[h.sid].buf + h.piece), fs, unread)
    ensures h.Handle? ==> Follows(Handled(p, h.sid), fs, unread)
  {
    assert [] + unread == unread;
    if h.Open? {
      OpenedFollows(fs, unread);
    } else if h.Arrive? {
      ArrivedFollows(p.sessions[h.sid], fs, h.piece, unread);
    } else {
      HandledFollows(g, p, h, fs, unread);
    }
  }

  lemma OpenedFollows(fs: seq<Args>, unread: Bytes)
    requires unread == Stream(fs)
    ensures Follows(FRESH, fs, unread)
  {
    assert fs[0..] == fs;
    assert [] + unread == unread;
  }

  lemma ArrivedFollows(s: Sess, fs: seq<Args>, piece: Bytes, unread: Bytes)
    requires Follows(s, fs, piece + unread)
    ensures Follows(s.(buf := s.buf + piece), fs, unread)
  {
    Assoc(s.buf, piece, unread);
  }

  lemma HandledFollows(g: Regime, p: Process, h: Happening, fs: seq<Args>, unread: Bytes)
    requires Possible(g, p, h) && h.Handle? && AllPackable(fs) && Handled(p, h.sid).phase != Dead
    requires Follows(p.sessions[h.sid], fs, unread)
    ensures Follows(Handled(p, h.sid), fs, unread)
  {
    AliveFollows(_ => p.server.status, p.sessions[h.sid], fs, unread);
  }

  /** The request asks, field by field, for what was sent. */
  ghost predicate Asked(req: Request, a: Args) {
    && (a.InitializeArgs? <==> req.InitializeReq?)
    && (a.TrainArgs? <==> req.TrainReq?)
    && (a.LoadArgs? <==> req.LoadReq?)
    && (a.SearchArgs? <==> req.SearchReq?)
    && (a.EvictArgs? <==> req.EvictReq?)
    && (a.AddArgs? <==> req.AddReq?)
    && (a.InitializeArgs? ==> req.d == a.d)
    && (a.LoadArgs? ==> req.nload == a.nload && req.xq == a.xq)
    && (a.SearchArgs? ==> req.n == a.n && req.k == a.k && req.nprobe == a.nprobe)
    && (a.SearchArgs? ==> req.requireAll == a.requireAll && req.xqs == a.xq)
    && (a.EvictArgs? ==> req.nevict == a.nevict && req.xq == a.xq)
    && (a.AddArgs? ==> req.ids == a.ids && req.embeddings == a.embeddings)
  }

  lemma MadeIsAsked(reqs: seq<Request>, fs: seq<Args>)
    requires AllMadeOf(reqs, fs)
    ensures |reqs| == |fs| && forall j | 0 <= j < |fs| :: Asked(reqs[j], fs[j])
  {
    forall j | 0 <= j < |fs|
      ensures Asked(reqs[j], fs[j])
    {
      assert MadeOf(reqs[j], fs[j]);
    }
  }

  /** End to end, for every run of the process from its start and every connection in it: once all
      bytes of a sequence of commands have arrived on the connection and its session waits with
      the process alive, the session has executed exactly those commands, in order, however the
      bytes were cut and whatever other sessions did in between; and the cache is where a legal
      run of the server with those executions takes it. */
  lemma SentIsExecuted(g: Regime, hs: seq<Happening>, sid: nat, fs: seq<Args>)
    requires Lawful(g, Start(), hs) && AllPackable(fs) && Arrived(hs, sid) == Stream(fs)
    requires Alive(Ended(g, Start(), hs)) && sid in Ended(g, Start(), hs).sessions
    requires !Ready(Ended(g, Start(), hs).sessions[sid])
    ensures var q, es := Ended(g, Start(), hs), Inside(g, Start(), hs);
            && q.sessions[sid] == Sess(AwaitCommand, [], fs)
            && |Carried(es, sid)| == |fs|
            && (forall j | 0 <= j < |fs| :: Asked(Carried(es, sid)[j], fs[j]))
            && Legal(g, Boot(), es) && Run(g, Boot(), es) == q.server
  {
    var q := Ended(g, Start(), hs);
    ProcessRunsServer(g, Start(), hs);
    AliveMeansFollowing(g, Start(), hs, sid, fs);
    FollowedToTheEnd(_ => READY, q.sessions[sid], fs);
    DecodedIsExecuted(g, Start(), hs, sid);
    assert fs[0..] == fs;
    MadeIsAsked(Carried(Inside(g, Start(), hs), sid), fs);
  }
}

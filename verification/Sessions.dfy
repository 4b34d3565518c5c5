/** Byte streams and shared cache together: what a session decodes from its connection is what
    its executions in a run of the server carry, with the status at each of its command lines
    the one that run has there. */
module Sessions {
  import opened Bytes
  import opened Commands
  import opened Args
  import opened Framing
  import opened Server

  /** The cache's status at each command line of one session, in order. */
  ghost function StatusesAt(g: Regime, sv: Server, es: seq<Event>, sid: nat): seq<Status>
    requires Legal(g, sv, es)
    decreases |es|
  {
    if es == [] then []
    else
      var rest := StatusesAt(g, Step(sv, es[0]), es[1..], sid);
      if es[0].Accept? && es[0].sid == sid then [sv.status] + rest else rest
  }

  /** The requests one session executes, in order. */
  function Carried(es: seq<Event>, sid: nat): seq<Request> {
    if es == [] then []
    else
      var rest := Carried(es[1..], sid);
      if es[0].Execute? && es[0].sid == sid then [es[0].req] + rest else rest
  }

  /** The request is made of these arguments; the rest of it is the environment's. */
  predicate MadeOf(req: Request, a: Args) {
    match req
    case InitializeReq(d, _, _, _) => a.InitializeArgs? && a.d == d
    case TrainReq(_) => a.TrainArgs?
    case LoadReq(xq, nload, _) => a == LoadArgs(nload, xq)
    case SearchReq(n, xqs, k, nprobe, requireAll) => a == SearchArgs(n, k, nprobe, requireAll, xqs)
    case EvictReq(xq, nevict) => a == EvictArgs(nevict, xq)
    case AddReq(ids, embeddings) => a == AddArgs(ids, embeddings)
  }

  /** The status as a function of the command line's position. */
  function Nth(statuses: seq<Status>): nat -> Status {
    (j: nat) => if j < |statuses| then statuses[j] else UNINITIALIZED
  }

  /** The requests answer to the first of the statuses, in order, and each was allowed there. */
  ghost predicate Answering(statuses: seq<Status>, reqs: seq<Request>) {
    |reqs| <= |statuses| && forall j | 0 <= j < |reqs| :: Allowed(statuses[j], RequestedCommand(reqs[j]))
  }

  lemma OneMoreAnswered(status: Status, statuses: seq<Status>, req: Request, reqs: seq<Request>)
    requires Answering(statuses, reqs) && Allowed(status, RequestedCommand(req))
    ensures Answering([status] + statuses, [req] + reqs)
  {
  }

  /** What a step does to one session's accepted command. */
  lemma StepPending(g: Regime, sv: Server, e: Event, sid: nat)
    requires LegalEvent(g, sv, e)
    ensures var t := Step(sv, e);
            && (e.sid != sid ==> (sid in t.pending <==> sid in sv.pending))
            && (e.sid != sid && sid in sv.pending ==> t.pending[sid] == sv.pending[sid])
            && (e.Accept? ==> e.sid !in sv.pending)
            && (e.Accept? && t.health == Up ==> e.sid in t.pending && Allowed(sv.status, t.pending[e.sid].cmd))
            && (e.Execute? ==> e.sid in sv.pending && e.sid !in t.pending)
            && (e.Execute? ==> RequestedCommand(e.req) == sv.pending[e.sid].cmd)
  {
  }

  /** Each execution of a session answers to one of its command lines, in order, and was allowed
      by the status there. first is the status at the line of a command pending at the start. */
  lemma {:induction false} ExecutionsWereAllowed(g: Regime, sv: Server, es: seq<Event>, sid: nat, first: seq<Status>)
    requires Legal(g, sv, es)
    requires if sid in sv.pending then |first| == 1 && Allowed(first[0], sv.pending[sid].cmd) else first == []
    ensures Answering(first + StatusesAt(g, sv, es, sid), Carried(es, sid))
    decreases |es|
  {
    if es != [] {
      var e, rest := es[0], es[1..];
      var t := Step(sv, e);
      StepPending(g, sv, e, sid);
      if t.health != Up {
        assert rest == [];
      } else if e.sid != sid {
        ExecutionsWereAllowed(g, t, rest, sid, first);
      } else if e.Accept? {
        ExecutionsWereAllowed(g, t, rest, sid, [sv.status]);
        assert first + ([sv.status] + StatusesAt(g, t, rest, sid)) == [sv.status] + StatusesAt(g, t, rest, sid);
      } else {
        var statuses := StatusesAt(g, t, rest, sid);
        ExecutionsWereAllowed(g, t, rest, sid, []);
        assert [] + statuses == statuses;
        OneMoreAnswered(first[0], statuses, e.req, Carried(rest, sid));
        assert first == [first[0]];
      }
    }
  }

  lemma AnsweredIsAllowed(statuses: seq<Status>, reqs: seq<Request>, fs: seq<Args>)
    requires Answering(statuses, reqs) && |fs| == |reqs| && forall j | 0 <= j < |fs| :: MadeOf(reqs[j], fs[j])
    ensures AllAllowed(Nth(statuses), fs)
  {
    forall j | 0 <= j < |fs|
      ensures Allowed(Nth(statuses)(j), CommandOf(fs[j]))
    {
      assert CommandOf(fs[j]) == RequestedCommand(reqs[j]);
    }
  }

  /** For every run of the server and every session in it: the bytes of the commands it executed,
      cut anywhere, are decoded on its connection to exactly those commands, under the statuses
      of that run, if and only if no arrival ends inside the header of an ADD. */
  lemma SessionsDecodeWhatTheyExecute(g: Regime, es: seq<Event>, sid: nat, fs: seq<Args>, pieces: seq<Bytes>)
    requires Legal(g, Boot(), es)
    requires |fs| == |Carried(es, sid)| && forall j | 0 <= j < |fs| :: MadeOf(Carried(es, sid)[j], fs[j])
    requires AllPackable(fs) && Concat(pieces) == Stream(fs)
    requires AllFit(Nth(StatusesAt(g, Boot(), es, sid)), FRESH, pieces)
    ensures Deliver(Nth(StatusesAt(g, Boot(), es, sid)), FRESH, pieces) == Sess(AwaitCommand, [], fs)
            <==> !SomePieceEndsInAddHeader(fs, pieces)
  {
    var statuses := StatusesAt(g, Boot(), es, sid);
    ExecutionsWereAllowed(g, Boot(), es, sid, []);
    assert [] + statuses == statuses;
    AnsweredIsAllowed(statuses, Carried(es, sid), fs);
    DecodesUnlessCutInAddHeader(Nth(statuses), fs, pieces);
  }
}

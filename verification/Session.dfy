/** The session object: the pending read, the buffered input and the handlers that run when a
    read completes. Handlers that find enough buffered call the next one directly, the others
    leave a read pending; either way the session ends where Framing.Settle says. */
module SessionClass {
  import opened Bytes
  import opened Commands
  import opened Args
  import opened Readers
  import opened Framing

  /** Where a command line takes the session, by what the cache says of it. */
  lemma FireLine(at: nat -> Status, s: Sess, line: Bytes, rest: Bytes)
    requires s.phase == AwaitCommand && Ready(s) && GetLine(s.buf).1 == rest && StripCR(GetLine(s.buf).0) == line
    ensures AcceptedAs(at(|s.done|), line).None? ==> Settle(at, s) == Settle(at, Sess(Dead, [], s.done))
    ensures AcceptedAs(at(|s.done|), line).Some? ==>
              Settle(at, s) == Settle(at, Sess(AwaitStatic(AcceptedAs(at(|s.done|), line).value), rest, s.done))
  {
    assert Settle(at, s) == Settle(at, Fire(at, s));
  }

  class Session {
    var phase: Phase
    const input: InStream
    /** The completed argument objects given to process_args, oldest first. */
    var done: seq<Args>

    /** What status the cache has when this session's j-th command line is read. */
    const at: nat -> Status

    constructor (at: nat -> Status)
      ensures State() == FRESH && fresh(input) && this.at == at
    {
      this.at := at;
      phase := AwaitCommand;
      input := new InStream([]);
      done := [];
    }

    ghost function State(): Sess
      reads this, input
    {
      Sess(phase, if phase == Dead then [] else input.data, done)
    }

    /** Nothing more to read and nothing buffered that still matters comes last. */
    ghost function Remaining(): nat
      reads this, input
    {
      if phase == Dead then 0 else |input.data| + 1
    }

    /** The handler of async_read_until. */
    method OnLine()
      requires phase == AwaitCommand && Ready(State())
      modifies this, input
      ensures Settle(at, State()) == old(Settle(at, State()))
      ensures Remaining() < old(Remaining())
    {
      var (line, rest) := GetLine(input.data);
      line := StripCR(line);
      var command := ProcessCommand(at(|done|), line);
      OneAnswer(at(|done|), line, command);
      FireLine(at, State(), line, rest);
      if command.None? {
        phase := Dead;
      } else {
        input.data := rest;
        ReadArgs(command.value);
      }
    }

    method ReadArgs(c: Command)
      requires phase != Dead
      modifies this, input
      ensures Settle(at, State()) == old(Settle(at, State().(phase := AwaitStatic(c))))
      ensures Remaining() <= old(Remaining())
    {
      phase := AwaitStatic(c);
      if |input.data| >= StaticSize(c) {
        OnStatic(c);
      }
    }

    /** The static part is buffered. */
    method OnStatic(c: Command)
      requires phase == AwaitStatic(c) && Ready(State())
      modifies this, input
      ensures Settle(at, State()) == old(Settle(at, State()))
      ensures Remaining() < old(Remaining())
    {
      StaticSizesAgreeExceptAdd(c, input.data);
      var header := input.DeserializeStatic(c);
      if header.None? {
        phase := Dead;
      } else {
        ReadDynamicArgs(header.value);
      }
    }

    method ReadDynamicArgs(h: Header)
      requires phase != Dead
      modifies this, input
      ensures Settle(at, State()) == old(Settle(at, State().(phase := AwaitDynamic(h))))
      ensures Remaining() <= old(Remaining())
    {
      phase := AwaitDynamic(h);
      if |input.data| >= Awaited(h) {
        OnDynamic(h);
      }
    }

    /** The dynamic part is buffered: the command is complete, and the next one may be read. */
    method OnDynamic(h: Header)
      requires phase == AwaitDynamic(h) && Ready(State())
      modifies this, input
      ensures Settle(at, State()) == old(Settle(at, State()))
      ensures Remaining() < old(Remaining())
    {
      DynamicConsumes(h, input.data);
      var args := input.DeserializeDynamic(h);
      if args.None? {
        phase := Dead;
      } else {
        done := done + [args.value];
        phase := AwaitCommand;
      }
    }

    /** Bytes arrive for the pending read; handlers run until one has to wait. */
    method OnRead(piece: Bytes)
      modifies this, input
      ensures State() == Receive(at, old(State()), piece)
    {
      if phase == Dead {
        return;
      }
      input.data := input.data + piece;
      ghost var end := Settle(at, State());
      while phase != Dead && Ready(Sess(phase, input.data, []))
        invariant Settle(at, State()) == end
        decreases Remaining()
      {
        match phase
        case AwaitCommand => OnLine();
        case AwaitStatic(c) => OnStatic(c);
        case AwaitDynamic(h) => OnDynamic(h);
      }
    }
  }
}

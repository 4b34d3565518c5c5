/** How a session cuts commands out of the bytes that arrive. The three handlers wait for a
    line end, for the static part and for the dynamic part; the bytes arrive in pieces cut
    anywhere. Values first; the class in Session.dfy is proved against them. */
module Framing {
  import opened Bytes
  import opened Commands
  import opened Args

  /** What the session is waiting for. Dead: an exception or a short read ended the process,
      and what was buffered no longer matters. */
  datatype Phase = AwaitCommand | AwaitStatic(cmd: Command) | AwaitDynamic(header: Header) | Dead

  /** buf is input_stream; done holds the commands decoded so far. */
  datatype Sess = Sess(phase: Phase, buf: Bytes, done: seq<Args>)

  // ---------- handlers ----------

  /** async_read_until's condition. */
  predicate HasCRLF(bs: Bytes) {
    |bs| >= 2 && ((bs[0] == CR && bs[1] == LF) || HasCRLF(bs[1..]))
  }

  /** std::getline: the characters before the first line feed, and what follows it. */
  function GetLine(bs: Bytes): (r: (Bytes, Bytes))
    ensures |r.1| <= |bs|
    ensures HasCRLF(bs) ==> |r.1| < |bs|
  {
    if bs == [] then ([], [])
    else if bs[0] == LF then ([], bs[1..])
    else
      var (line, rest) := GetLine(bs[1..]);
      ([bs[0]] + line, rest)
  }

  function StripCR(line: Bytes): Bytes {
    if line != [] && line[|line| - 1] == CR then line[..|line| - 1] else line
  }

  /** The bytes of dynamic part and end delimiter that are waited for, in size_t. */
  function Awaited(h: Header): nat {
    Wrap64(h.size + 2)
  }

  predicate Ready(s: Sess) {
    match s.phase
    case AwaitCommand => HasCRLF(s.buf)
    case AwaitStatic(c) => |s.buf| >= StaticSize(c)
    case AwaitDynamic(h) => |s.buf| >= Awaited(h)
    case Dead => false
  }

  /** One handler runs to its end. at says what status the cache has when the session's j-th
      command line is read, which other sessions may have changed; a command that is unknown or
      not allowed then brings the process down. */
  ghost function Fire(at: nat -> Status, s: Sess): (r: Sess)
    requires Ready(s)
    ensures r.phase == Dead || |r.buf| < |s.buf|
  {
    match s.phase
    case AwaitCommand =>
      var (line, rest) := GetLine(s.buf);
      (match AcceptedAs(at(|s.done|), StripCR(line))
       case None => s.(phase := Dead, buf := [])
       case Some(c) => s.(phase := AwaitStatic(c), buf := rest))
    case AwaitStatic(c) =>
      (match ParseStatic(c, s.buf)
       case None => s.(phase := Dead, buf := [])
       case Some(p) => s.(phase := AwaitDynamic(p.0), buf := p.1))
    case AwaitDynamic(h) =>
      DynamicConsumes(h, s.buf);
      (match ParseDynamic(h, s.buf)
       case None => s.(phase := Dead, buf := [])
       case Some(p) => Sess(AwaitCommand, p.1, s.done + [p.0]))
  }

  lemma DynamicConsumes(h: Header, bs: Bytes)
    ensures ParseDynamic(h, bs).Some? ==> |ParseDynamic(h, bs).value.1| < |bs|
  {
    if h.AddHeader? {
      IdsConsume(h.numDocs, 0, bs);
    }
  }

  lemma {:induction false} IdsConsume(numDocs: nat, total: nat, bs: Bytes)
    ensures ParseIds(numDocs, total, bs).Some? ==> |ParseIds(numDocs, total, bs).value.2| <= |bs|
    decreases numDocs
  {
    if numDocs > 0 && |bs| >= 8 {
      var (idLen, b1) := TakeU64(bs).value;
      if |b1| >= idLen {
        IdsConsume(numDocs - 1, Wrap64(total + idLen + 8), b1[idLen..]);
      }
    }
  }

  /** Handlers run as long as what is buffered is enough for the next one. */
  ghost function Settle(at: nat -> Status, s: Sess): (r: Sess)
    ensures !Ready(r)
    decreases if s.phase == Dead then 0 else |s.buf| + 1
  {
    if Ready(s) then Settle(at, Fire(at, s)) else s
  }

  // ---------- arrivals ----------

  /** The most a read may add: reading a line takes what comes, reading arguments takes exactly
      what is missing, piece by piece. */
  predicate Fits(s: Sess, piece: Bytes) {
    match s.phase
    case AwaitCommand => true
    case AwaitStatic(c) => |s.buf| + |piece| <= StaticSize(c)
    case AwaitDynamic(h) => |s.buf| + |piece| <= Awaited(h)
    case Dead => true
  }

  ghost function Receive(at: nat -> Status, s: Sess, piece: Bytes): Sess {
    if s.phase == Dead then s else Settle(at, s.(buf := s.buf + piece))
  }

  ghost function Deliver(at: nat -> Status, s: Sess, pieces: seq<Bytes>): Sess
    decreases |pieces|
  {
    if pieces == [] then s else Deliver(at, Receive(at, s, pieces[0]), pieces[1..])
  }

  ghost predicate AllFit(at: nat -> Status, s: Sess, pieces: seq<Bytes>)
    decreases |pieces|
  {
    pieces == [] || (Fits(s, pieces[0]) && AllFit(at, Receive(at, s, pieces[0]), pieces[1..]))
  }

  function Concat(pieces: seq<Bytes>): Bytes {
    if pieces == [] then [] else pieces[0] + Concat(pieces[1..])
  }

  /** The bytes of a sequence of commands on one connection. */
  function Stream(fs: seq<Args>): Bytes {
    if fs == [] then [] else Frame(fs[0]) + Stream(fs[1..])
  }

  ghost predicate AllPackable(fs: seq<Args>) {
    forall f | f in fs :: Packable(f)
  }

  /** Each command is allowed when its line is read. */
  ghost predicate AllAllowed(at: nat -> Status, fs: seq<Args>) {
    forall j | 0 <= j < |fs| :: Allowed(at(j), CommandOf(fs[j]))
  }

  const FRESH := Sess(AwaitCommand, [], [])

  // ---------- which arrivals an ADD survives ----------

  /** With r bytes still to come, the last arrival ended inside the 17 bytes that follow the
      command line of some ADD. */
  predicate EndsInAddHeader(fs: seq<Args>, r: nat) {
    fs != [] &&
    ((fs[0].AddArgs? && |Stream(fs)| - 22 < r <= |Stream(fs)| - 5) || EndsInAddHeader(fs[1..], r))
  }

  /** Some arrival ends there. */
  predicate SomePieceEndsInAddHeader(fs: seq<Args>, pieces: seq<Bytes>) {
    pieces != [] && (EndsInAddHeader(fs, |Concat(pieces[1..])|) || SomePieceEndsInAddHeader(fs, pieces[1..]))
  }

  /** Past saving: dead, or waiting for 9 bytes when 17 will be read. */
  predicate Doomed(s: Sess) {
    s.phase == Dead || (s.phase == AwaitStatic(ADD) && |s.buf| < 9)
  }

  // ---------- the invariant: where in the stream the session is ----------

  ghost predicate Tracks(s: Sess, left: seq<Args>, unread: Bytes) {
    match s.phase
    case AwaitCommand => s.buf + unread == Stream(left)
    case AwaitStatic(c) => left != [] && c == CommandOf(left[0]) && s.buf + unread == Body(left[0]) + Stream(left[1..])
    case AwaitDynamic(h) =>
      left != [] && h == HeaderOf(left[0]) && s.buf + unread == DynamicBytes(left[0]) + CRLF + Stream(left[1..])
    case Dead => false
  }

  // ---------- the command line ----------

  lemma WordLetters(c: Command)
    ensures 3 <= |WordOf(c)| && forall i | 0 <= i < |WordOf(c)| :: WordOf(c)[i] >= 65
    ensures |WordOf(ADD)| == 3
  {
  }

  lemma GetLineAtCRLF(buf: Bytes)
    requires |buf| >= 2 && buf[0] == CR && buf[1] == LF
    ensures HasCRLF(buf) && GetLine(buf) == ([CR], buf[2..])
  {
    var rest := buf[1..];
    assert rest[0] == LF && rest[1..] == buf[2..];
    assert GetLine(rest) == ([], rest[1..]);
    assert GetLine(buf) == ([CR] + GetLine(rest).0, GetLine(rest).1);
    assert [CR] + GetLine(rest).0 == [CR];
  }

  lemma LineEnd(buf: Bytes, unread: Bytes, more: Bytes)
    requires |buf| >= 2 && buf + unread == CRLF + more
    ensures buf[0] == CR && buf[1] == LF && buf[2..] + unread == more
  {
    var all := CRLF + more;
    assert buf[0] == (buf + unread)[0];
    assert buf[1] == (buf + unread)[1];
    assert (buf + unread)[2..] == buf[2..] + unread;
    assert all[2..] == more;
  }

  /** A buffer that is a prefix of word, CRLF and more has a line end in it exactly when it
      reaches past the line; and then the line is the word. */
  lemma {:induction false} LineOf(w: Bytes, buf: Bytes, unread: Bytes, more: Bytes)
    requires forall i | 0 <= i < |w| :: w[i] >= 65
    requires buf + unread == w + (CRLF + more)
    ensures HasCRLF(buf) <==> |buf| >= |w| + 2
    ensures |buf| >= |w| + 2 ==> GetLine(buf) == (w + [CR], buf[|w| + 2..]) && buf[|w| + 2..] + unread == more
    decreases |w|
  {
    var all := w + (CRLF + more);
    if |buf| >= 1 {
      assert buf[0] == all[0];
    }
    if w == [] {
      assert all == CRLF + more;
      assert w + [CR] == [CR];
      if |buf| >= 2 {
        LineEnd(buf, unread, more);
        GetLineAtCRLF(buf);
      }
    } else if |buf| >= 1 {
      assert buf[1..] + unread == all[1..] == w[1..] + (CRLF + more);
      LineOf(w[1..], buf[1..], unread, more);
      assert w == [w[0]] + w[1..];
      if |buf| >= |w| + 2 {
        assert buf[1..][|w[1..]| + 2..] == buf[|w| + 2..];
        assert [w[0]] + (w[1..] + [CR]) == w + [CR];
      }
    }
  }

  lemma FrameShape(f: Args, rest: Bytes)
    ensures Frame(f) + rest == WordOf(CommandOf(f)) + (CRLF + (Body(f) + rest))
    ensures Body(f) + rest == StaticBytes(HeaderOf(f)) + [LF] + (DynamicBytes(f) + CRLF + rest)
  {
    var w := WordOf(CommandOf(f));
    Assoc(w + CRLF, Body(f), rest);
    Assoc(w, CRLF, Body(f) + rest);
    Assoc(StaticBytes(HeaderOf(f)) + [LF], DynamicBytes(f) + CRLF, rest);
  }

  lemma FrameLength(f: Args)
    requires Packable(f)
    ensures |Frame(f)| == |WordOf(CommandOf(f))| + 2 + |Body(f)|
    ensures |Body(f)| == StaticNeeded(CommandOf(f)) + Awaited(HeaderOf(f))
    ensures f.AddArgs? ==> |Frame(f)| >= 25
  {
    StaticLength(f);
    DynamicRoundTrip(f, []);
    WordLetters(ADD);
  }

  /** The lengths of what is left, in each phase. */
  lemma Lengths(s: Sess, left: seq<Args>, unread: Bytes)
    requires Tracks(s, left, unread) && AllPackable(left) && left != []
    ensures var c := CommandOf(left[0]);
            var after := Awaited(HeaderOf(left[0])) + |Stream(left[1..])|;
            && |Stream(left)| == |WordOf(c)| + 2 + StaticNeeded(c) + after
            && |s.buf| + |unread| == (match s.phase
                                      case AwaitCommand => |Stream(left)|
                                      case AwaitStatic(_) => StaticNeeded(c) + after
                                      case _ => after)
  {
    var f := left[0];
    assert f in left;
    FrameLength(f);
    DynamicRoundTrip(f, []);
    assert |Frame(f) + Stream(left[1..])| == |Frame(f)| + |Stream(left[1..])|;
    assert |Body(f) + Stream(left[1..])| == |Body(f)| + |Stream(left[1..])|;
    assert |DynamicBytes(f) + CRLF + Stream(left[1..])| == |DynamicBytes(f)| + 2 + |Stream(left[1..])|;
  }

  // ---------- one handler ----------

  /** The line read is the word of the next command. */
  lemma LineRead(s: Sess, left: seq<Args>, unread: Bytes)
    requires s.phase == AwaitCommand && Tracks(s, left, unread) && left != []
    ensures Ready(s) <==> |s.buf| >= |WordOf(CommandOf(left[0]))| + 2
    ensures Ready(s) ==> StripCR(GetLine(s.buf).0) == WordOf(CommandOf(left[0]))
    ensures Ready(s) ==> GetLine(s.buf).1 + unread == Body(left[0]) + Stream(left[1..])
  {
    var word := WordOf(CommandOf(left[0]));
    FrameShape(left[0], Stream(left[1..]));
    WordLetters(CommandOf(left[0]));
    LineOf(word, s.buf, unread, Body(left[0]) + Stream(left[1..]));
    assert StripCR(word + [CR]) == word;
  }

  lemma CommandFires(at: nat -> Status, s: Sess, left: seq<Args>, unread: Bytes)
    requires s.phase == AwaitCommand && Tracks(s, left, unread) && left != []
    requires Allowed(at(|s.done|), CommandOf(left[0]))
    ensures Ready(s) <==> |s.buf| >= |WordOf(CommandOf(left[0]))| + 2
    ensures Ready(s) ==> Tracks(Fire(at, s), left, unread) && Fire(at, s).done == s.done
  {
    var c := CommandOf(left[0]);
    LineRead(s, left, unread);
    OneAnswer(at(|s.done|), WordOf(c), Some(c));
  }

  /** What is read off a prefix of the stream does not depend on where the prefix ends. */
  lemma Prefix(buf: Bytes, unread: Bytes, head: Bytes, tail: Bytes)
    requires buf + unread == head + tail && |buf| >= |head|
    ensures buf == head + buf[|head|..] && buf[|head|..] + unread == tail
  {
    var all := head + tail;
    assert buf == all[..|buf|];
    assert buf[..|head|] == head;
    assert buf[|head|..] + unread == all[|head|..] == tail;
  }

  lemma StaticFires(at: nat -> Status, s: Sess, left: seq<Args>, unread: Bytes)
    requires s.phase.AwaitStatic? && Tracks(s, left, unread) && AllPackable(left)
    requires |s.buf| >= StaticNeeded(s.phase.cmd)
    ensures Ready(s) && Tracks(Fire(at, s), left, unread) && Fire(at, s).done == s.done
  {
    var f := left[0];
    assert f in left;
    var head, tail := StaticBytes(HeaderOf(f)) + [LF], DynamicBytes(f) + CRLF + Stream(left[1..]);
    FrameShape(f, Stream(left[1..]));
    StaticLength(f);
    Prefix(s.buf, unread, head, tail);
    StaticRoundTrip(f, s.buf[|head|..]);
  }

  lemma DynamicFires(at: nat -> Status, s: Sess, left: seq<Args>, unread: Bytes)
    requires s.phase.AwaitDynamic? && Tracks(s, left, unread) && AllPackable(left) && Ready(s)
    ensures Tracks(Fire(at, s), left[1..], unread) && Fire(at, s).done == s.done + [left[0]]
  {
    var f := left[0];
    assert f in left;
    var head, tail := DynamicBytes(f) + CRLF, Stream(left[1..]);
    DynamicRoundTrip(f, []);
    Prefix(s.buf, unread, head, tail);
    DynamicRoundTrip(f, s.buf[|head|..]);
  }

  // ---------- where an arrival may end ----------

  lemma {:induction false} NotInHeaderAbove(fs: seq<Args>, r: nat)
    requires r > |Stream(fs)| - 5
    ensures !EndsInAddHeader(fs, r)
  {
    if fs != [] {
      NotInHeaderAbove(fs[1..], r);
    }
  }

  /** Commands already decoded do not matter. */
  lemma {:induction false} EndsLater(fs: seq<Args>, k: nat, r: nat)
    requires k <= |fs| && AllPackable(fs) && r <= |Stream(fs[k..])|
    ensures EndsInAddHeader(fs, r) <==> EndsInAddHeader(fs[k..], r)
    ensures |Stream(fs[k..])| <= |Stream(fs)|
    decreases k
  {
    if k > 0 {
      var rest := fs[1..];
      assert rest[k - 1..] == fs[k..];
      EndsLater(rest, k - 1, r);
      assert fs[0] in fs;
      FrameLength(fs[0]);
    } else {
      assert fs[0..] == fs;
    }
  }

  /** A session that can do no more for now has lost its way exactly when the bytes so far end
      inside the header of an ADD. */
  lemma SettledIff(at: nat -> Status, s: Sess, left: seq<Args>, unread: Bytes)
    requires Tracks(s, left, unread) && AllPackable(left) && !Ready(s)
    requires left != [] ==> Allowed(at(|s.done|), CommandOf(left[0]))
    ensures Doomed(s) <==> EndsInAddHeader(left, |unread|)
  {
    if left != [] {
      if s.phase == AwaitCommand {
        CommandFires(at, s, left, unread);
      }
      Lengths(s, left, unread);
      SettledBounds(s, left, |unread|);
      NotInHeaderAbove(left[1..], |unread|);
    }
  }

  lemma SettledBounds(s: Sess, left: seq<Args>, r: nat)
    requires left != [] && s.phase != Dead
    requires s.phase == AwaitCommand ==> |s.buf| < |WordOf(CommandOf(left[0]))| + 2
    requires s.phase != AwaitCommand ==> !Ready(s)
    requires s.phase.AwaitStatic? ==> s.phase.cmd == CommandOf(left[0])
    requires s.phase.AwaitDynamic? ==> s.phase.header == HeaderOf(left[0])
    requires var c := CommandOf(left[0]);
             var after := Awaited(HeaderOf(left[0])) + |Stream(left[1..])|;
             && |Stream(left)| == |WordOf(c)| + 2 + StaticNeeded(c) + after
             && |s.buf| + r == (match s.phase
                                case AwaitCommand => |Stream(left)|
                                case AwaitStatic(_) => StaticNeeded(c) + after
                                case _ => after)
    ensures r > |Stream(left[1..])| - 5
    ensures left[0].AddArgs? && |Stream(left)| - 22 < r <= |Stream(left)| - 5 <==> Doomed(s)
  {
    WordLetters(ADD);
    var c, awaited := CommandOf(left[0]), Awaited(HeaderOf(left[0]));
    StaticSizesAgreeExceptAdd(c, []);
    assert c == ADD <==> left[0].AddArgs?;
    SettledSums(left[0].AddArgs?, |WordOf(c)|, StaticNeeded(c), StaticSize(c), awaited, |Stream(left[1..])|, |s.buf|, r,
                if s.phase == AwaitCommand then 0 else if s.phase.AwaitStatic? then 1 else 2);
  }

  lemma SettledSums(add: bool, word: nat, needed: nat, declared: nat, awaited: nat,
                    rest: nat, buf: nat, r: nat, phase: nat)
    requires (add ==> word == 3 && needed == 17 && declared == 9) && (!add ==> declared == needed) && phase <= 2
    requires phase == 0 ==> buf < word + 2 && buf + r == word + 2 + needed + awaited + rest
    requires phase == 1 ==> buf < declared && buf + r == needed + awaited + rest
    requires phase == 2 ==> buf < awaited && buf + r == awaited + rest
    ensures var all := word + 2 + needed + awaited + rest;
            r > rest - 5 && (add && all - 22 < r <= all - 5 <==> add && phase == 1)
  {
  }

  // ---------- all handlers ----------

  /** done is how far the session has come in fs, and the rest is still ahead of it. */
  ghost predicate Follows(s: Sess, fs: seq<Args>, unread: Bytes) {
    |s.done| <= |fs| && s.done == fs[..|s.done|] && Tracks(s, fs[|s.done|..], unread)
  }

  /** Settling keeps track of the stream, unless the bytes so far end inside the header of an ADD. */
  lemma {:induction false} SettleFollows(at: nat -> Status, s: Sess, fs: seq<Args>, unread: Bytes)
    requires Follows(s, fs, unread) && AllPackable(fs) && AllAllowed(at, fs)
    ensures if EndsInAddHeader(fs, |unread|) then Doomed(Settle(at, s)) else Follows(Settle(at, s), fs, unread)
    decreases |s.buf|
  {
    var left := fs[|s.done|..];
    LeftIsLonger(s, left, unread);
    EndsLater(fs, |s.done|, |unread|);
    if !Ready(s) {
      SettledIff(at, s, left, unread);
    } else if s.phase.AwaitStatic? && |s.buf| < StaticNeeded(s.phase.cmd) {
      ShortHeader(at, s, left, unread);
    } else {
      FireFollows(at, s, fs, unread);
      SettleFollows(at, Fire(at, s), fs, unread);
    }
  }

  lemma LeftIsLonger(s: Sess, left: seq<Args>, unread: Bytes)
    requires Tracks(s, left, unread) && AllPackable(left)
    ensures |unread| <= |Stream(left)|
  {
    if left != [] {
      Lengths(s, left, unread);
    } else {
      assert |s.buf + unread| == |s.buf| + |unread|;
    }
  }

  /** An ADD header read before it is all there: the read fails and the process ends. */
  lemma ShortHeader(at: nat -> Status, s: Sess, left: seq<Args>, unread: Bytes)
    requires s.phase.AwaitStatic? && Tracks(s, left, unread) && AllPackable(left)
    requires Ready(s) && |s.buf| < StaticNeeded(s.phase.cmd)
    ensures EndsInAddHeader(left, |unread|) && Settle(at, s).phase == Dead
  {
    StaticSizesAgreeExceptAdd(s.phase.cmd, s.buf);
    Lengths(s, left, unread);
    WordLetters(ADD);
    assert Fire(at, s).phase == Dead;
    assert Settle(at, s) == Settle(at, Fire(at, s)) == Fire(at, s);
  }

  lemma FireFollows(at: nat -> Status, s: Sess, fs: seq<Args>, unread: Bytes)
    requires Follows(s, fs, unread) && AllPackable(fs) && AllAllowed(at, fs) && Ready(s)
    requires s.phase.AwaitStatic? ==> |s.buf| >= StaticNeeded(s.phase.cmd)
    ensures Follows(Fire(at, s), fs, unread)
  {
    var left := fs[|s.done|..];
    if s.phase == AwaitCommand {
      assert |s.buf + unread| == |s.buf| + |unread|;
      CommandFires(at, s, left, unread);
    } else if s.phase.AwaitStatic? {
      StaticFires(at, s, left, unread);
    } else {
      DynamicFires(at, s, left, unread);
      OneMoreDone(fs, s.done);
    }
  }

  lemma OneMoreDone(fs: seq<Args>, before: seq<Args>)
    requires |before| < |fs| && before == fs[..|before|]
    ensures before + [fs[|before|..][0]] == fs[..|before| + 1]
    ensures fs[|before|..][1..] == fs[|before| + 1..]
  {
  }

  /** A handler that leaves the session alive keeps it at its place in the stream. */
  lemma AliveFollows(at: nat -> Status, s: Sess, fs: seq<Args>, unread: Bytes)
    requires Follows(s, fs, unread) && AllPackable(fs) && Ready(s) && Fire(at, s).phase != Dead
    ensures Follows(Fire(at, s), fs, unread)
  {
    var left := fs[|s.done|..];
    if s.phase == AwaitCommand {
      assert |s.buf + unread| == |s.buf| + |unread|;
      LineRead(s, left, unread);
      var c := CommandOf(left[0]);
      WordsDiffer(c, AcceptedAs(at(|s.done|), WordOf(c)).value);
      CommandFires(at, s, left, unread);
    } else if s.phase.AwaitStatic? {
      StaticSizesAgreeExceptAdd(s.phase.cmd, s.buf);
      StaticFires(at, s, left, unread);
    } else {
      DynamicFires(at, s, left, unread);
      OneMoreDone(fs, s.done);
    }
  }

  // ---------- all arrivals ----------

  /** A session that has lost its way never finds it again: at most 9 bytes of the ADD header
      are waited for, and 17 are read. */
  lemma {:induction false} DoomedStays(at: nat -> Status, s: Sess, pieces: seq<Bytes>)
    requires Doomed(s) && AllFit(at, s, pieces)
    ensures Doomed(Deliver(at, s, pieces))
    decreases |pieces|
  {
    if pieces != [] {
      var t := s.(buf := s.buf + pieces[0]);
      if s.phase != Dead && Ready(t) {
        StaticSizesAgreeExceptAdd(ADD, t.buf);
        assert Fire(at, t).phase == Dead;
        assert Settle(at, t) == Settle(at, Fire(at, t)) == Fire(at, t);
      }
      DoomedStays(at, Receive(at, s, pieces[0]), pieces[1..]);
    }
  }

  lemma {:induction false} DeliverFollows(at: nat -> Status, s: Sess, fs: seq<Args>, pieces: seq<Bytes>)
    requires Follows(s, fs, Concat(pieces)) && AllPackable(fs) && AllAllowed(at, fs) && AllFit(at, s, pieces)
    ensures var t := Deliver(at, s, pieces);
            if SomePieceEndsInAddHeader(fs, pieces) then Doomed(t)
            else Follows(t, fs, []) && (pieces != [] || !Ready(s) ==> !Ready(t))
    decreases |pieces|
  {
    if pieces != [] {
      var t := s.(buf := s.buf + pieces[0]);
      var unread := Concat(pieces[1..]);
      Assoc(s.buf, pieces[0], unread);
      SettleFollows(at, t, fs, unread);
      var u := Receive(at, s, pieces[0]);
      if EndsInAddHeader(fs, |unread|) {
        DoomedStays(at, u, pieces[1..]);
      } else {
        DeliverFollows(at, u, fs, pieces[1..]);
      }
    }
  }

  /** With nothing left to come and nothing left to do, everything has been decoded. */
  lemma FollowedToTheEnd(at: nat -> Status, s: Sess, fs: seq<Args>)
    requires Follows(s, fs, []) && AllPackable(fs) && AllAllowed(at, fs) && !Ready(s)
    ensures s == Sess(AwaitCommand, [], fs)
  {
    var left := fs[|s.done|..];
    if left != [] {
      Lengths(s, left, []);
      StaticSizesAgreeExceptAdd(CommandOf(left[0]), s.buf);
      if s.phase == AwaitCommand {
        CommandFires(at, s, left, []);
      }
      assert false;
    }
    assert s.buf + [] == s.buf;
    assert fs[..|fs|] == fs;
  }

  // ---------- only allowed commands get through ----------

  function CommandOfHeader(h: Header): Command {
    match h
    case InitializeHeader(_, _, _, _, _) => INITIALIZE
    case TrainHeader(_) => TRAIN
    case LoadHeader(_, _) => LOAD
    case SearchHeader(_, _, _, _, _) => SEARCH
    case EvictHeader(_, _) => EVICT
    case AddHeader(_, _) => ADD
  }

  /** Every command decoded, or being decoded, was allowed when its line was read. */
  ghost predicate Admitted(at: nat -> Status, s: Sess) {
    && AllAllowed(at, s.done)
    && (s.phase.AwaitStatic? ==> Allowed(at(|s.done|), s.phase.cmd))
    && (s.phase.AwaitDynamic? ==> Allowed(at(|s.done|), CommandOfHeader(s.phase.header)))
  }

  lemma StaticKeepsCommand(c: Command, bs: Bytes)
    ensures ParseStatic(c, bs).Some? ==> CommandOfHeader(ParseStatic(c, bs).value.0) == c
  {
  }

  lemma DynamicKeepsCommand(h: Header, bs: Bytes)
    ensures ParseDynamic(h, bs).Some? ==> CommandOf(ParseDynamic(h, bs).value.0) == CommandOfHeader(h)
  {
  }

  lemma FireAdmits(at: nat -> Status, s: Sess)
    requires Admitted(at, s) && Ready(s)
    ensures Admitted(at, Fire(at, s))
  {
    if s.phase.AwaitStatic? {
      StaticKeepsCommand(s.phase.cmd, s.buf);
    } else if s.phase.AwaitDynamic? {
      DynamicKeepsCommand(s.phase.header, s.buf);
    }
  }

  lemma {:induction false} SettleAdmits(at: nat -> Status, s: Sess)
    requires Admitted(at, s)
    ensures Admitted(at, Settle(at, s))
    decreases if s.phase == Dead then 0 else |s.buf| + 1
  {
    if Ready(s) {
      FireAdmits(at, s);
      SettleAdmits(at, Fire(at, s));
    }
  }

  lemma {:induction false} DeliverAdmits(at: nat -> Status, s: Sess, pieces: seq<Bytes>)
    requires Admitted(at, s)
    ensures Admitted(at, Deliver(at, s, pieces))
    decreases |pieces|
  {
    if pieces != [] {
      SettleAdmits(at, s.(buf := s.buf + pieces[0]));
      DeliverAdmits(at, Receive(at, s, pieces[0]), pieces[1..]);
    }
  }

  /** Fragmentation: whatever the payloads contain and wherever the bytes of a sequence of
      commands are cut, exactly those commands are decoded and no byte is left over, if and
      only if each is allowed when its line is read and no arrival ends inside the header of
      an ADD. */
  lemma DecodesUnlessCutInAddHeader(at: nat -> Status, fs: seq<Args>, pieces: seq<Bytes>)
    requires AllPackable(fs) && AllFit(at, FRESH, pieces) && Concat(pieces) == Stream(fs)
    ensures Deliver(at, FRESH, pieces) == Sess(AwaitCommand, [], fs)
            <==> AllAllowed(at, fs) && !SomePieceEndsInAddHeader(fs, pieces)
  {
    DeliverAdmits(at, FRESH, pieces);
    if AllAllowed(at, fs) {
      AllowedDecode(at, fs, pieces);
    }
  }

  lemma AllowedDecode(at: nat -> Status, fs: seq<Args>, pieces: seq<Bytes>)
    requires AllPackable(fs) && AllAllowed(at, fs) && AllFit(at, FRESH, pieces) && Concat(pieces) == Stream(fs)
    ensures Deliver(at, FRESH, pieces) == Sess(AwaitCommand, [], fs) <==> !SomePieceEndsInAddHeader(fs, pieces)
  {
    assert fs[0..] == fs;
    assert [] + Concat(pieces) == Stream(fs);
    DeliverFollows(at, FRESH, fs, pieces);
    if !SomePieceEndsInAddHeader(fs, pieces) {
      FollowedToTheEnd(at, Deliver(at, FRESH, pieces), fs);
    }
  }

  /** The other five commands survive every fragmentation. */
  lemma DecodesWithoutAdd(at: nat -> Status, fs: seq<Args>, pieces: seq<Bytes>)
    requires AllPackable(fs) && AllAllowed(at, fs) && AllFit(at, FRESH, pieces) && Concat(pieces) == Stream(fs)
    requires forall f | f in fs :: !f.AddArgs?
    ensures Deliver(at, FRESH, pieces) == Sess(AwaitCommand, [], fs)
  {
    DecodesUnlessCutInAddHeader(at, fs, pieces);
    NoAddNoHeader(fs, pieces);
  }

  lemma {:induction false} NoAddNoHeader(fs: seq<Args>, pieces: seq<Bytes>)
    requires forall f | f in fs :: !f.AddArgs?
    ensures !SomePieceEndsInAddHeader(fs, pieces)
    decreases |pieces|
  {
    if pieces != [] {
      NoAddNotIn(fs, |Concat(pieces[1..])|);
      NoAddNoHeader(fs, pieces[1..]);
    }
  }

  lemma {:induction false} NoAddNotIn(fs: seq<Args>, r: nat)
    requires forall f | f in fs :: !f.AddArgs?
    ensures !EndsInAddHeader(fs, r)
  {
    if fs != [] {
      NoAddNotIn(fs[1..], r);
    }
  }

  // ---------- instances ----------

  /** Any commands whose bytes arrive all at once are decoded, ADD included. */
  lemma ArrivingAtOnceDecodes(at: nat -> Status, fs: seq<Args>)
    requires AllPackable(fs) && AllAllowed(at, fs)
    ensures Deliver(at, FRESH, [Stream(fs)]) == Sess(AwaitCommand, [], fs)
  {
    var pieces := [Stream(fs)];
    assert pieces[1..] == [] && Concat(pieces) == Stream(fs) + [] == Stream(fs);
    assert AllFit(at, Receive(at, FRESH, pieces[0]), []);
    DecodesUnlessCutInAddHeader(at, fs, pieces);
    NothingLeftIsNoHeader(fs);
    assert !SomePieceEndsInAddHeader(fs, []);
  }

  lemma {:induction false} NothingLeftIsNoHeader(fs: seq<Args>)
    requires AllPackable(fs)
    ensures !EndsInAddHeader(fs, 0)
  {
    if fs != [] {
      assert fs[0] in fs;
      FrameLength(fs[0]);
      NothingLeftIsNoHeader(fs[1..]);
    }
  }

  /** Any ADD cut once after 9 to 16 bytes of its header ends the process. */
  lemma CutAddIsLost(at: nat -> Status, f: Args, c: nat)
    requires f.AddArgs? && Packable(f) && 14 <= c < 22 && at(0) == READY
    ensures c < |Frame(f)|
    ensures Deliver(at, FRESH, [Frame(f)[..c], Frame(f)[c..]]).phase == Dead
  {
    FrameLength(f);
    var first, second := Frame(f)[..c], Frame(f)[c..];
    var s := FRESH.(buf := [] + first);
    assert first + second == Frame(f) == Frame(f) + Stream([]);
    assert [f][1..] == [] && Stream([f]) == Frame(f) + Stream([]);
    HeaderDies(at, s, f, second);
    var pieces := [first, second];
    assert pieces[1..] == [second] && pieces[1..][1..] == [];
    var dead := Receive(at, FRESH, first);
    assert Deliver(at, dead, pieces[1..]) == Deliver(at, dead, []);
  }

  lemma HeaderDies(at: nat -> Status, s: Sess, f: Args, unread: Bytes)
    requires f.AddArgs? && Packable(f) && at(|s.done|) == READY
    requires s.phase == AwaitCommand && Tracks(s, [f], unread) && 14 <= |s.buf| < 22
    ensures Settle(at, s).phase == Dead
  {
    CommandFires(at, s, [f], unread);
    WordLetters(ADD);
    var t := Fire(at, s);
    Lengths(s, [f], unread);
    Lengths(t, [f], unread);
    ShortHeader(at, t, [f], unread);
    assert Settle(at, s) == Settle(at, t);
  }
}

/** The Python client: its request encoders and its reader of search replies. A receive may
    return any non-empty part of what was asked for, so the readers loop; each result is tied
    to the parsers of Reply.dfy. */
module Client {
  import opened Bytes
  import opened Commands
  import opened Args
  import opened Framing
  import opened Reply
  import opened Layout
  import CoreState

  // ---------- fragmentation ----------

  /** No piece ends inside the first width bytes of what is still to come. A cut is named by the
      number of bytes that come after it. */
  ghost predicate Whole(cuts: set<nat>, bs: Bytes, width: nat) {
    forall r: nat | |bs| - width < r < |bs| :: r !in cuts
  }

  /** No piece ends inside one of the four lengths of the record that comes next. */
  ghost predicate RecordIntact(cuts: set<nat>, bs: Bytes) {
    && Whole(cuts, bs, 8)
    && match TakeString(bs)
       case None => true
       case Some(id) =>
         && Whole(cuts, id.1, 8)
         && match TakeVec(id.1)
            case None => true
            case Some(embedding) =>
              && Whole(cuts, embedding.1, 8)
              && match TakeString(embedding.1)
                 case None => true
                 case Some(document) => Whole(cuts, document.1, 8)
  }

  /** Each of n things in a row comes whole. */
  ghost predicate ManyIntact<T>(take: Bytes -> Option<(T, Bytes)>, intact: Bytes -> bool, n: nat, bs: Bytes)
    decreases n
  {
    n == 0 || (intact(bs) && match take(bs)
                             case None => true
                             case Some(p) => ManyIntact(take, intact, n - 1, p.1))
  }

  ghost predicate RecordsIntact(cuts: set<nat>, n: nat, bs: Bytes) {
    ManyIntact(TakeRecord, b => RecordIntact(cuts, b), n, bs)
  }

  /** Nor inside the count of an answer. */
  ghost predicate AnswerIntact(cuts: set<nat>, bs: Bytes) {
    && Whole(cuts, bs, 4)
    && match TakeI32(bs)
       case None => true
       case Some(p) => RecordsIntact(cuts, if p.0 < 0 then 0 else p.0, p.1)
  }

  /** No piece ends inside a length or a count of the next n answers. */
  ghost predicate AnswersIntact(cuts: set<nat>, n: nat, bs: Bytes) {
    ManyIntact(TakeAnswer, b => AnswerIntact(cuts, b), n, bs)
  }

  /** Reading that fails on what does not come whole. */
  ghost function WholeOnly<T>(take: Bytes -> Option<(T, Bytes)>, intact: Bytes -> bool): Bytes -> Option<(T, Bytes)> {
    b => if intact(b) then take(b) else None
  }

  lemma {:induction false} WholeOrNone<T>(take: Bytes -> Option<(T, Bytes)>, intact: Bytes -> bool, n: nat, bs: Bytes)
    ensures TakeMany(WholeOnly(take, intact), n, bs)
            == if ManyIntact(take, intact, n, bs) then TakeMany(take, n, bs) else None
    decreases n
  {
    if n > 0 && intact(bs) && take(bs).Some? {
      WholeOrNone(take, intact, n - 1, take(bs).value.1);
    }
  }

  /** A piece that ends inside the first count breaks any reading; one piece breaks none. */
  lemma CutsMatter(n: nat, bs: Bytes, r: nat)
    requires n >= 1 && |bs| - 4 < r < |bs|
    ensures !AnswersIntact({r}, n, bs) && AnswersIntact({}, n, bs)
  {
    assert r in {r};
    assert !AnswerIntact({r}, bs);
    forall b: Bytes
      ensures AnswerIntact({}, b)
    {
      NoCutsInAnswer(b);
    }
    AllIntact(TakeAnswer, b => AnswerIntact({}, b), n, bs);
  }

  lemma NoCutsInAnswer(bs: Bytes)
    ensures AnswerIntact({}, bs)
  {
    forall b: Bytes
      ensures RecordIntact({}, b)
    {
    }
    if TakeI32(bs).Some? {
      var (count, rest) := TakeI32(bs).value;
      AllIntact(TakeRecord, b => RecordIntact({}, b), if count < 0 then 0 else count, rest);
    }
  }

  lemma {:induction false} AllIntact<T>(take: Bytes -> Option<(T, Bytes)>, intact: Bytes -> bool, n: nat, bs: Bytes)
    requires forall b: Bytes :: intact(b)
    ensures ManyIntact(take, intact, n, bs)
    decreases n
  {
    if n > 0 && take(bs).Some? {
      AllIntact(take, intact, n - 1, take(bs).value.1);
    }
  }

  /** The stream to the server: messages sent, bytes on their way back up to the close, and where
      the pieces they arrive in end. */
  class Connection {
    var sent: seq<Bytes>
    var incoming: Bytes
    const cuts: set<nat>

    constructor (incoming: Bytes, cuts: set<nat>)
      ensures sent == [] && this.incoming == incoming && this.cuts == cuts
    {
      this.sent, this.incoming, this.cuts := [], incoming, cuts;
    }

    method Send(message: Bytes)
      modifies `sent
      ensures sent == old(sent) + [message]
    {
      sent := sent + [message];
    }

    /** Up to bufferSize bytes, but none beyond the end of the piece that has arrived; an empty
        result only when the stream is over. */
    method Receive(bufferSize: nat) returns (data: Bytes)
      modifies `incoming
      ensures old(incoming) == data + incoming && |data| <= bufferSize
      ensures data == [] <==> bufferSize == 0 || old(incoming) == []
      ensures Whole(cuts, old(incoming), |data|)
      ensures |data| == bufferSize || incoming == [] || |incoming| in cuts
    {
      if bufferSize == 0 || incoming == [] {
        return [];
      }
      var n := 1;
      while n < bufferSize && n < |incoming| && |incoming| - n !in cuts
        invariant 1 <= n <= bufferSize && n <= |incoming|
        invariant Whole(cuts, incoming, n)
      {
        n := n + 1;
      }
      data := incoming[..n];
      incoming := incoming[n..];
    }
  }

  class Periplus {
    const conn: Connection

    constructor (conn: Connection)
      ensures this.conn == conn
    {
      this.conn := conn;
    }

    // ---------- reading ----------

    /** A fixed-size field, asked for once; unpacking anything shorter raises. */
    method ReceiveField(size: nat) returns (r: Option<Bytes>)
      requires size > 0
      modifies conn`incoming
      ensures r.Some? <==> |old(conn.incoming)| >= size && Whole(conn.cuts, old(conn.incoming), size)
      ensures r.Some? ==> TakeBytes(old(conn.incoming), size) == Some((r.value, conn.incoming))
    {
      var data := conn.Receive(size);
      if |data| != size {
        return None;
      }
      return Some(data);
    }

    method ReceiveLength() returns (r: Option<nat>)
      modifies conn`incoming
      ensures r.Some? <==> TakeU64(old(conn.incoming)).Some? && Whole(conn.cuts, old(conn.incoming), 8)
      ensures r.Some? ==> TakeU64(old(conn.incoming)) == Some((r.value, conn.incoming))
    {
      var data := ReceiveField(8);
      if data.None? {
        return None;
      }
      return Some(FromLittleEndian(data.value));
    }

    /** _read_string: exactly the requested bytes in order whatever the pieces, or the error
        when the stream ends early. */
    method ReadString(length: nat) returns (r: Option<Bytes>)
      modifies conn`incoming
      ensures r.Some? <==> |old(conn.incoming)| >= length
      ensures r.Some? ==> TakeBytes(old(conn.incoming), length) == Some((r.value, conn.incoming))
    {
      var chunks: seq<Bytes> := [];
      var bytesRecd := 0;
      while bytesRecd < length
        invariant Concat(chunks) + conn.incoming == old(conn.incoming)
        invariant bytesRecd == |Concat(chunks)| <= length
      {
        var chunk := conn.Receive(Min(length - bytesRecd, 2048));
        if chunk == [] {
          return None;
        }
        ConcatAppend(chunks, chunk);
        Assoc(Concat(chunks), chunk, conn.incoming);
        chunks := chunks + [chunk];
        bytesRecd := bytesRecd + |chunk|;
      }
      return Some(Concat(chunks));
    }

    /** _read_floats */
    method ReadFloats(numFloats: nat) returns (r: Option<Vec>)
      modifies conn`incoming
      ensures r.Some? <==> TakeFloats(old(conn.incoming), numFloats).Some?
      ensures r.Some? ==> TakeFloats(old(conn.incoming), numFloats) == Some((r.value, conn.incoming))
    {
      var numBytes := numFloats * 4;
      var allData := ReadString(numBytes);
      if allData.None? {
        return None;
      }
      FloatsOfPrefix(old(conn.incoming), numFloats);
      return Some(TakeFloats(allData.value, numFloats).value.0);
    }

    /** A length field and a string. */
    method ReadSized() returns (r: Option<Bytes>)
      modifies conn`incoming
      ensures r.Some? <==> TakeString(old(conn.incoming)).Some? && Whole(conn.cuts, old(conn.incoming), 8)
      ensures r.Some? ==> TakeString(old(conn.incoming)) == Some((r.value, conn.incoming))
    {
      var length := ReceiveLength();
      if length.None? {
        return None;
      }
      r := ReadString(length.value);
    }

    method DeserializeRecord() returns (r: Option<Record>)
      modifies conn`incoming
      ensures r.Some? <==> TakeRecord(old(conn.incoming)).Some? && RecordIntact(conn.cuts, old(conn.incoming))
      ensures r.Some? ==> TakeRecord(old(conn.incoming)) == Some((r.value, conn.incoming))
    {
      var id := ReadSized();
      if id.None? {
        return None;
      }
      var numFloats := ReceiveLength();
      if numFloats.None? {
        return None;
      }
      var embedding := ReadFloats(numFloats.value);
      if embedding.None? {
        return None;
      }
      var document := ReadSized();
      if document.None? {
        return None;
      }
      var metadata := ReadSized();
      if metadata.None? {
        return None;
      }
      return Some(Record(id.value, embedding.value, document.value, metadata.value));
    }

    /** One query's count and records; a negative count makes an empty range. */
    method DeserializeAnswer() returns (r: Option<seq<Record>>)
      modifies conn`incoming
      ensures r.Some? <==> TakeAnswer(old(conn.incoming)).Some? && AnswerIntact(conn.cuts, old(conn.incoming))
      ensures r.Some? ==> TakeAnswer(old(conn.incoming)) == Some((r.value, conn.incoming))
    {
      var data := ReceiveField(4);
      if data.None? {
        return None;
      }
      var u := FromLittleEndian(data.value);
      FromLittleEndianBound(data.value);
      Widths();
      r := DeserializeRecords(if u < TWO31 then u else 0);
    }

    method DeserializeRecords(numResults: nat) returns (r: Option<seq<Record>>)
      modifies conn`incoming
      ensures r.Some? <==>
        TakeRecords(numResults, old(conn.incoming)).Some? && RecordsIntact(conn.cuts, numResults, old(conn.incoming))
      ensures r.Some? ==> TakeRecords(numResults, old(conn.incoming)) == Some((r.value, conn.incoming))
    {
      WholeOrNone(TakeRecord, b => RecordIntact(conn.cuts, b), numResults, conn.incoming);
      r := RecordLoop(numResults, WholeOnly(TakeRecord, b => RecordIntact(conn.cuts, b)));
    }

    /** The loop, against the reading of one record. */
    method RecordLoop(numResults: nat, ghost take: Bytes -> Option<(Record, Bytes)>) returns (r: Option<seq<Record>>)
      requires take == WholeOnly(TakeRecord, b => RecordIntact(conn.cuts, b))
      modifies conn`incoming
      ensures r.Some? <==> TakeMany(take, numResults, old(conn.incoming)).Some?
      ensures r.Some? ==> TakeMany(take, numResults, old(conn.incoming)) == Some((r.value, conn.incoming))
    {
      var records: seq<Record> := [];
      ghost var all := TakeMany(take, numResults, conn.incoming);
      ghost var left: nat := numResults;
      AfterNothing(all);
      for i := 0 to numResults
        invariant left == numResults - i && After(records, TakeMany(take, left, conn.incoming)) == all
      {
        var record := NextRecord(records, left, take);
        left := left - 1;
        if record.None? {
          return None;
        }
        records := records + [record.value];
      }
      assert records + [] == records;
      return Some(records);
    }

    /** One more, after those got and before the rest of n. */
    method NextRecord(ghost got: seq<Record>, ghost n: nat, ghost take: Bytes -> Option<(Record, Bytes)>)
      returns (r: Option<Record>)
      requires n > 0 && take == WholeOnly(TakeRecord, b => RecordIntact(conn.cuts, b))
      modifies conn`incoming
      ensures r.Some? ==>
        After(got + [r.value], TakeMany(take, n - 1, conn.incoming))
        == After(got, TakeMany(take, n, old(conn.incoming)))
      ensures r.None? ==> After(got, TakeMany(take, n, old(conn.incoming))).None?
    {
      TakeManyStep(take, got, n, conn.incoming);
      r := DeserializeRecord();
    }

    /** _deserialize_query_results: what it returns is what was sent; and it returns exactly when
        the bytes are all there and no piece ends inside a length or a count. */
    method DeserializeQueryResults(numQueries: nat) returns (r: Option<seq<seq<Record>>>)
      modifies conn`incoming
      ensures r.Some? <==>
        TakeAnswers(numQueries, old(conn.incoming)).Some? && AnswersIntact(conn.cuts, numQueries, old(conn.incoming))
      ensures r.Some? ==> TakeAnswers(numQueries, old(conn.incoming)) == Some((r.value, conn.incoming))
    {
      WholeOrNone(TakeAnswer, b => AnswerIntact(conn.cuts, b), numQueries, conn.incoming);
      r := AnswerLoop(numQueries, WholeOnly(TakeAnswer, b => AnswerIntact(conn.cuts, b)));
    }

    /** The loop, against the reading of one answer. */
    method AnswerLoop(numQueries: nat, ghost take: Bytes -> Option<(seq<Record>, Bytes)>)
      returns (r: Option<seq<seq<Record>>>)
      requires take == WholeOnly(TakeAnswer, b => AnswerIntact(conn.cuts, b))
      modifies conn`incoming
      ensures r.Some? <==> TakeMany(take, numQueries, old(conn.incoming)).Some?
      ensures r.Some? ==> TakeMany(take, numQueries, old(conn.incoming)) == Some((r.value, conn.incoming))
    {
      var results: seq<seq<Record>> := [];
      ghost var all := TakeMany(take, numQueries, conn.incoming);
      ghost var left: nat := numQueries;
      AfterNothing(all);
      for i := 0 to numQueries
        invariant left == numQueries - i && After(results, TakeMany(take, left, conn.incoming)) == all
      {
        var answer := NextAnswer(results, left, take);
        left := left - 1;
        if answer.None? {
          return None;
        }
        results := results + [answer.value];
      }
      assert results + [] == results;
      return Some(results);
    }

    /** One more, after those got and before the rest of n. */
    method NextAnswer(ghost got: seq<seq<Record>>, ghost n: nat, ghost take: Bytes -> Option<(seq<Record>, Bytes)>)
      returns (r: Option<seq<Record>>)
      requires n > 0 && take == WholeOnly(TakeAnswer, b => AnswerIntact(conn.cuts, b))
      modifies conn`incoming
      ensures r.Some? ==>
        After(got + [r.value], TakeMany(take, n - 1, conn.incoming))
        == After(got, TakeMany(take, n, old(conn.incoming)))
      ensures r.None? ==> After(got, TakeMany(take, n, old(conn.incoming))).None?
    {
      TakeManyStep(take, got, n, conn.incoming);
      r := DeserializeAnswer();
    }

    /** Reading the reply the server sent for these hit counts and slots: each query gets the
        first cacheHits[i] records of its own slots, with nothing left over, exactly when no
        piece ends inside a length or a count. */
    method ReadReply(ghost cacheHits: seq<int>, ghost slots: seq<Record>, ghost k: nat, numQueries: nat)
      returns (r: Option<seq<seq<Record>>>)
      requires |cacheHits| == numQueries && |slots| == numQueries * k
      requires forall h | h in cacheHits :: FitsInt(h) && h <= k
      requires forall x | x in slots :: Sendable(x)
      requires conn.incoming == EncodeFrom(cacheHits, slots, k, 0)
      modifies conn`incoming
      ensures r.Some? <==> AnswersIntact(conn.cuts, numQueries, old(conn.incoming))
      ensures r.Some? ==> r.value == ReportedFrom(cacheHits, slots, k, 0) && conn.incoming == []
    {
      ReplyRoundTrip(cacheHits, slots, k, []);
      assert conn.incoming + [] == conn.incoming;
      r := DeserializeQueryResults(numQueries);
    }

    // ---------- requests ----------

    method Initialize(d: int, dbUrl: Bytes, maxMem: int, nRecords: int, useFlat: bool) returns (ok: bool)
      modifies conn`sent
      ensures ok <==> Fits64(d) && Fits64(maxMem) && Fits64(nRecords) && Fits64(|dbUrl|)
      ensures conn.sent == old(conn.sent)
                           + if ok then [Frame(InitializeArgs(d, maxMem, nRecords, useFlat, dbUrl))] else []
    {
      if !(Fits64(d) && Fits64(maxMem) && Fits64(nRecords) && Fits64(|dbUrl|)) {
        assert conn.sent + [] == conn.sent;
        return false;
      }
      var staticArgs := U64(d) + (U64(maxMem) + (U64(nRecords) + (BoolByte(useFlat) + U64(|dbUrl|))));
      FormatIsFrame(InitializeArgs(d, maxMem, nRecords, useFlat, dbUrl));
      conn.Send(FormatCommand(WordOf(INITIALIZE), staticArgs, dbUrl));
      return true;
    }

    /** An empty list raises, and so do vectors whose lengths do not add up. */
    method Train(trainingData: seq<Vec>) returns (ok: bool)
      modifies conn`sent
      ensures ok <==> Even(trainingData) && Fits64(4 * |Flat(trainingData)|)
      ensures conn.sent == old(conn.sent) + if ok then [Frame(TrainArgs(Flat(trainingData)))] else []
    {
      assert conn.sent + [] == conn.sent;
      if trainingData == [] {
        return false;
      }
      var numBytes := |trainingData| * |trainingData[0]| * 4;
      var floatList := Flat(trainingData);
      if !Fits64(numBytes) {
        return false;
      }
      var dynamicArgs := FloatBytes(floatList);
      if numBytes != |dynamicArgs| {
        return false;
      }
      FormatIsFrame(TrainArgs(floatList));
      conn.Send(FormatCommand(WordOf(TRAIN), U64(numBytes), dynamicArgs));
      return true;
    }

    method Load(xq: Vec, nload: int) returns (ok: bool)
      modifies conn`sent
      ensures ok <==> Fits64(nload) && Fits64(4 * |xq|)
      ensures conn.sent == old(conn.sent) + if ok then [Frame(LoadArgs(nload, xq))] else []
    {
      if !(Fits64(nload) && Fits64(4 * |xq|)) {
        assert conn.sent + [] == conn.sent;
        return false;
      }
      FormatIsFrame(LoadArgs(nload, xq));
      conn.Send(FormatCommand(WordOf(LOAD), U64(nload) + U64(|xq| * 4), FloatBytes(xq)));
      return true;
    }

    method Evict(vector: Vec, nevict: int) returns (ok: bool)
      modifies conn`sent
      ensures ok <==> Fits64(nevict) && Fits64(4 * |vector|)
      ensures conn.sent == old(conn.sent) + if ok then [Frame(EvictArgs(nevict, vector))] else []
    {
      if !(Fits64(nevict) && Fits64(4 * |vector|)) {
        assert conn.sent + [] == conn.sent;
        return false;
      }
      FormatIsFrame(EvictArgs(nevict, vector));
      conn.Send(FormatCommand(WordOf(EVICT), U64(nevict) + U64(|vector| * 4), FloatBytes(vector)));
      return true;
    }

    /** The request of a search; the reply is read by DeserializeQueryResults. */
    method Search(k: int, xq: seq<Vec>, nprobe: int, requireAll: bool) returns (ok: bool)
      modifies conn`sent
      ensures ok <==> Fits64(|xq|) && Fits64(k) && Fits64(nprobe) && Fits64(4 * |Flat(xq)|)
      ensures conn.sent == old(conn.sent)
                           + if ok then [Frame(SearchArgs(|xq|, k, nprobe, requireAll, Flat(xq)))] else []
      ensures ok && Fits64(4 * |Flat(xq)| + 2) ==>
        forall d: nat | AllLong(xq, d) ::
          SearchArrives(conn.sent[|old(conn.sent)|], k, xq, nprobe, requireAll, d)
    {
      var floatList := Flat(xq);
      var numBytes := |floatList| * 4;
      if !(Fits64(|xq|) && Fits64(k) && Fits64(nprobe) && Fits64(numBytes)) {
        assert conn.sent + [] == conn.sent;
        return false;
      }
      var staticArgs := U64(|xq|) + (U64(k) + (U64(nprobe) + (BoolByte(requireAll) + U64(numBytes))));
      FormatIsFrame(SearchArgs(|xq|, k, nprobe, requireAll, floatList));
      conn.Send(FormatCommand(WordOf(SEARCH), staticArgs, FloatBytes(floatList)));
      if Fits64(4 * |Flat(xq)| + 2) {
        forall d: nat | AllLong(xq, d)
          ensures SearchArrives(Frame(SearchArgs(|xq|, k, nprobe, requireAll, Flat(xq))), k, xq, nprobe, requireAll, d)
        {
          SearchDelivers(k, xq, nprobe, requireAll, d);
        }
      }
      return true;
    }

    /** ADD goes out in many messages. Their bytes are one ADD frame exactly when the vectors
        add up to the size declared from the first of them. */
    method Add(ids: seq<Bytes>, embeddings: seq<Vec>) returns (ok: bool)
      requires forall id | id in ids :: Fits64(|id|)
      modifies conn`sent
      ensures ok <==> |ids| == |embeddings| && embeddings != [] && Fits64(|ids|) && Fits64(Declared(ids, embeddings))
      ensures !ok ==> conn.sent == old(conn.sent)
      ensures ok ==> old(conn.sent) <= conn.sent
      ensures ok && Fits64(DynamicSize(AddArgs(ids, Flat(embeddings)))) ==>
        (Concat(conn.sent) == Concat(old(conn.sent)) + Frame(AddArgs(ids, Flat(embeddings))) <==> Even(embeddings))
      ensures ok && Fits64(DynamicSize(AddArgs(ids, Flat(embeddings))) + 2) ==>
        forall d: nat | AllLong(embeddings, d) ::
          Concat(old(conn.sent)) <= Concat(conn.sent)
          && AddArrives(Concat(conn.sent)[|Concat(old(conn.sent))|..], ids, embeddings, d)
    {
      if |ids| != |embeddings| {
        return false;
      }
      var numBytes := SizeOfIds(ids);
      numBytes := numBytes + |ids| * 8 + 1;
      if embeddings == [] {
        return false;
      }
      numBytes := numBytes + |embeddings| * |embeddings[0]| * 4;
      if !(Fits64(|ids|) && Fits64(numBytes)) {
        return false;
      }
      SendAdd(ids, embeddings, numBytes);
      if Fits64(DynamicSize(AddArgs(ids, Flat(embeddings)))) {
        AddMessages(Concat(old(conn.sent)), ids, embeddings, numBytes);
      }
      if Fits64(DynamicSize(AddArgs(ids, Flat(embeddings))) + 2) {
        forall d: nat | AllLong(embeddings, d)
          ensures Concat(old(conn.sent)) <= Concat(conn.sent)
          ensures AddArrives(Concat(conn.sent)[|Concat(old(conn.sent))|..], ids, embeddings, d)
        {
          FlatAt(embeddings, d);
          assert embeddings[0] in embeddings;
          FrameOfAdd(ids, embeddings, d);
          assert Concat(conn.sent)[|Concat(old(conn.sent))|..] == Frame(AddArgs(ids, Flat(embeddings)));
        }
      }
      return true;
    }

    method SizeOfIds(ids: seq<Bytes>) returns (numBytes: nat)
      ensures numBytes == IdLengths(ids)
    {
      numBytes := 0;
      assert ids[0..] == ids;
      for i := 0 to |ids|
        invariant numBytes + IdLengths(ids[i..]) == IdLengths(ids)
      {
        assert ids[i..][1..] == ids[i + 1..];
        numBytes := numBytes + |ids[i]|;
      }
    }

    /** The messages of an ADD with the size declared in its header. */
    method SendAdd(ids: seq<Bytes>, embeddings: seq<Vec>, numBytes: nat)
      requires forall id | id in ids :: Fits64(|id|)
      modifies conn`sent
      ensures old(conn.sent) <= conn.sent
      ensures Concat(conn.sent) == Concat(old(conn.sent)) + (WordOf(ADD) + CRLF + (U64(|ids|) + U64(numBytes)) + [LF])
                                   + IdBytes(ids) + [LF] + FloatBytes(Flat(embeddings)) + CRLF
    {
      SendOne(WordOf(ADD) + CRLF + (U64(|ids|) + U64(numBytes)) + [LF]);
      SendIds(ids);
      SendOne([LF]);
      SendEmbeddings(embeddings);
      SendOne(CRLF);
    }

    method SendOne(message: Bytes)
      modifies conn`sent
      ensures old(conn.sent) <= conn.sent
      ensures Concat(conn.sent) == Concat(old(conn.sent)) + message
    {
      ConcatAppend(conn.sent, message);
      conn.Send(message);
    }

    method SendIds(ids: seq<Bytes>)
      requires forall id | id in ids :: Fits64(|id|)
      modifies conn`sent
      ensures old(conn.sent) <= conn.sent
      ensures Concat(conn.sent) == Concat(old(conn.sent)) + IdBytes(ids)
    {
      assert ids[0..] == ids;
      for i := 0 to |ids|
        invariant old(conn.sent) <= conn.sent
        invariant Concat(conn.sent) + IdBytes(ids[i..]) == Concat(old(conn.sent)) + IdBytes(ids)
      {
        ghost var before := conn.sent;
        var idData := U64(|ids[i]|) + ids[i];
        SendOne(idData);
        assert ids[i..][1..] == ids[i + 1..];
        Assoc(Concat(before), idData, IdBytes(ids[i + 1..]));
      }
      assert Concat(conn.sent) + [] == Concat(conn.sent);
    }

    method SendEmbeddings(embeddings: seq<Vec>)
      modifies conn`sent
      ensures old(conn.sent) <= conn.sent
      ensures Concat(conn.sent) == Concat(old(conn.sent)) + FloatBytes(Flat(embeddings))
    {
      assert embeddings[0..] == embeddings;
      for i := 0 to |embeddings|
        invariant old(conn.sent) <= conn.sent
        invariant Concat(conn.sent) + FloatBytes(Flat(embeddings[i..]))
                  == Concat(old(conn.sent)) + FloatBytes(Flat(embeddings))
      {
        ghost var before := conn.sent;
        var embeddingData := FloatBytes(embeddings[i]);
        SendOne(embeddingData);
        assert embeddings[i..][1..] == embeddings[i + 1..];
        FloatBytesAppend(embeddings[i], Flat(embeddings[i + 1..]));
        Assoc(Concat(before), embeddingData, FloatBytes(Flat(embeddings[i + 1..])));
      }
      assert Concat(conn.sent) + [] == Concat(conn.sent);
    }
  }

  // ---------- what the encoders compute ----------

  /** What struct.pack accepts as an unsigned 64-bit field. */
  predicate Fits64(x: int) {
    0 <= x < TWO64
  }

  function FormatCommand(command: Bytes, staticArgs: Bytes, dynamicArgs: Bytes): Bytes {
    command + CRLF + staticArgs + [LF] + dynamicArgs + CRLF
  }

  lemma FormatIsFrame(a: Args)
    ensures FormatCommand(WordOf(CommandOf(a)), StaticBytes(HeaderOf(a)), DynamicBytes(a)) == Frame(a)
  {
    FormatParts(WordOf(CommandOf(a)) + CRLF, StaticBytes(HeaderOf(a)), DynamicBytes(a));
  }

  lemma FormatParts(line: Bytes, staticArgs: Bytes, dynamicArgs: Bytes)
    ensures line + staticArgs + [LF] + dynamicArgs + CRLF == line + (staticArgs + [LF] + (dynamicArgs + CRLF))
  {
  }

  /** All the vectors' floats in order. */
  function Flat(vs: seq<Vec>): Vec {
    if vs == [] then [] else vs[0] + Flat(vs[1..])
  }

  /** The floats are as many as the number and the first vector's length say. */
  predicate Even(vs: seq<Vec>) {
    vs != [] && |Flat(vs)| == |vs| * |vs[0]|
  }

  predicate AllLong(vs: seq<Vec>, d: nat) {
    forall v | v in vs :: |v| == d
  }

  /** Vectors of one length, flattened, are found again at multiples of that length: the i-th
      row is the i-th vector. */
  lemma {:induction false} FlatAt(vs: seq<Vec>, d: nat)
    requires AllLong(vs, d)
    ensures |Flat(vs)| == |vs| * d
    ensures forall i: nat | i < |vs| :: RowAt(Flat(vs), d, i, vs[i])
  {
    if vs != [] {
      assert vs[0] in vs;
      FlatAt(vs[1..], d);
      Times(1, |vs| - 1, d);
      FirstRow(vs[0], Flat(vs[1..]));
      LaterRows(vs[0], Flat(vs[1..]), d, vs[1..]);
      RowsFromFirst(Flat(vs), d, vs);
    }
  }

  lemma RowsFromFirst(x: Vec, d: nat, vs: seq<Vec>)
    requires vs != [] && RowAt(x, d, 0, vs[0]) && forall j: nat | j < |vs[1..]| :: RowAt(x, d, j + 1, vs[1..][j])
    ensures forall i: nat | i < |vs| :: RowAt(x, d, i, vs[i])
  {
    forall i: nat | i < |vs|
      ensures RowAt(x, d, i, vs[i])
    {
      if i > 0 {
        assert RowAt(x, d, (i - 1) + 1, vs[1..][i - 1]);
      }
    }
  }

  ghost predicate RowAt(x: Vec, d: nat, i: nat, v: Vec) {
    0 <= i * d && i * d + d <= |x| && x[i * d..i * d + d] == v
  }

  lemma FirstRow(v: Vec, rest: Vec)
    ensures RowAt(v + rest, |v|, 0, v)
  {
  }

  lemma LaterRows(v: Vec, rest: Vec, d: nat, vs: seq<Vec>)
    requires |v| == d && forall i: nat | i < |vs| :: RowAt(rest, d, i, vs[i])
    ensures forall j: nat | j < |vs| :: RowAt(v + rest, d, j + 1, vs[j])
  {
    forall j: nat | j < |vs|
      ensures RowAt(v + rest, d, j + 1, vs[j])
    {
      assert RowAt(rest, d, j, vs[j]);
      Times(1, j, d);
      LaterRow(v, rest, j * d, d, vs[j]);
    }
  }

  lemma LaterRow(v: Vec, rest: Vec, from: nat, d: nat, w: Vec)
    requires from + d <= |rest| && rest[from..from + d] == w
    ensures (v + rest)[|v| + from..|v| + from + d] == w
  {
  }

  /** The rows of x are the vectors, in order. */
  ghost predicate Delivers(x: Vec, d: nat, vs: seq<Vec>) {
    |x| == |vs| * d && forall i: nat | i < |vs| :: CoreState.Row(x, d, i) == vs[i]
  }

  lemma FlatDelivers(vs: seq<Vec>, d: nat)
    requires AllLong(vs, d)
    ensures Delivers(Flat(vs), d, vs)
  {
    FlatAt(vs, d);
    forall i: nat | i < |vs|
      ensures CoreState.Row(Flat(vs), d, i) == vs[i]
    {
      assert RowAt(Flat(vs), d, i, vs[i]);
      CoreState.RowIs(Flat(vs), d, i);
    }
  }

  /** The message is a SEARCH line, and what the server decodes after it is the caller's k, nprobe
      and require_all, and the caller's vectors row by row. */
  ghost predicate SearchArrives(m: Bytes, k: int, xq: seq<Vec>, nprobe: int, requireAll: bool, d: nat) {
    && |m| >= 8 && m[..8] == [83, 69, 65, 82, 67, 72, 13, 10]
    && var got := ParseBody(SEARCH, m[8..]);
    && got.Some? && got.value.1 == [] && got.value.0.SearchArgs?
    && got.value.0.n == |xq| && got.value.0.k == k && got.value.0.nprobe == nprobe
    && got.value.0.requireAll == requireAll
    && Delivers(got.value.0.xq, d, xq)
  }

  lemma FrameDecodes(a: Args, word: Bytes)
    requires Packable(a) && WordOf(CommandOf(a)) == word
    ensures |Frame(a)| >= |word| + 2 && Frame(a)[..|word| + 2] == word + [13, 10]
    ensures ParseBody(CommandOf(a), Frame(a)[|word| + 2..]) == Some((a, []))
  {
    BodyRoundTrip(a, []);
    assert Body(a) + [] == Body(a);
    assert Frame(a)[..|word| + 2] == word + CRLF && Frame(a)[|word| + 2..] == Body(a);
  }

  lemma SearchDelivers(k: nat, xq: seq<Vec>, nprobe: nat, requireAll: bool, d: nat)
    requires AllLong(xq, d) && Packable(SearchArgs(|xq|, k, nprobe, requireAll, Flat(xq)))
    ensures SearchArrives(Frame(SearchArgs(|xq|, k, nprobe, requireAll, Flat(xq))), k, xq, nprobe, requireAll, d)
  {
    FlatDelivers(xq, d);
    FrameOfSearch(SearchArgs(|xq|, k, nprobe, requireAll, Flat(xq)), xq, d);
  }

  lemma FrameOfSearch(a: Args, xq: seq<Vec>, d: nat)
    requires a.SearchArgs? && Packable(a) && a.n == |xq| && Delivers(a.xq, d, xq)
    ensures SearchArrives(Frame(a), a.k, xq, a.nprobe, a.requireAll, d)
  {
    SearchWord();
    FrameDecodes(a, [83, 69, 65, 82, 67, 72]);
  }

  lemma SearchWord()
    ensures WordOf(SEARCH) == [83, 69, 65, 82, 67, 72]
  {
    WordsSpelled();
  }

  /** The messages are an ADD line, and what the server decodes after it pairs each of the
      caller's ids with the caller's vector of the same place. */
  ghost predicate AddArrives(m: Bytes, ids: seq<Bytes>, embeddings: seq<Vec>, d: nat) {
    && |m| >= 5 && m[..5] == [65, 68, 68, 13, 10]
    && var got := ParseBody(ADD, m[5..]);
    && got.Some? && got.value.1 == [] && got.value.0.AddArgs?
    && got.value.0.ids == ids
    && Delivers(got.value.0.embeddings, d, embeddings)
  }

  lemma FrameOfAdd(ids: seq<Bytes>, embeddings: seq<Vec>, d: nat)
    requires AllLong(embeddings, d) && Packable(AddArgs(ids, Flat(embeddings)))
    ensures AddArrives(Frame(AddArgs(ids, Flat(embeddings))), ids, embeddings, d)
  {
    WordsSpelled();
    FrameDecodes(AddArgs(ids, Flat(embeddings)), [65, 68, 68]);
    FlatDelivers(embeddings, d);
  }

  function IdLengths(ids: seq<Bytes>): nat {
    if ids == [] then 0 else |ids[0]| + IdLengths(ids[1..])
  }

  function Declared(ids: seq<Bytes>, embeddings: seq<Vec>): nat
    requires embeddings != []
  {
    IdLengths(ids) + |ids| * 8 + 1 + |embeddings| * |embeddings[0]| * 4
  }

  lemma {:induction false} LengthsTotal(ids: seq<Bytes>)
    ensures IdTotal(ids) == IdLengths(ids) + |ids| * 8
  {
    if ids != [] {
      LengthsTotal(ids[1..]);
    }
  }

  lemma AddMessages(before: Bytes, ids: seq<Bytes>, embeddings: seq<Vec>, numBytes: nat)
    requires embeddings != [] && numBytes == Declared(ids, embeddings) < TWO64
    requires DynamicSize(AddArgs(ids, Flat(embeddings))) < TWO64
    ensures Even(embeddings) <==>
            before + (WordOf(ADD) + CRLF + (U64(|ids|) + U64(numBytes)) + [LF]) + IdBytes(ids) + [LF]
            + FloatBytes(Flat(embeddings)) + CRLF
            == before + Frame(AddArgs(ids, Flat(embeddings)))
  {
    var size := DynamicSize(AddArgs(ids, Flat(embeddings)));
    AddFrameLayout(ids, Flat(embeddings));
    SameHeader(before, WordOf(ADD) + CRLF, U64(|ids|), numBytes, size, IdBytes(ids), FloatBytes(Flat(embeddings)));
    LengthsTotal(ids);
  }

  lemma AddFrameLayout(ids: seq<Bytes>, v: Vec)
    ensures Frame(AddArgs(ids, v))
            == WordOf(ADD) + CRLF
               + (U64(|ids|) + U64(DynamicSize(AddArgs(ids, v))) + [LF] + (IdBytes(ids) + [LF] + FloatBytes(v) + CRLF))
  {
  }

  lemma SameHeader(before: Bytes, line: Bytes, count: Bytes, numBytes: nat, size: nat, ids: Bytes, floats: Bytes)
    requires numBytes < TWO64 && size < TWO64
    ensures before + (line + (count + U64(numBytes)) + [LF]) + ids + [LF] + floats + CRLF
            == before + (line + (count + U64(size) + [LF] + (ids + [LF] + floats + CRLF)))
            <==> numBytes == size
  {
    var rest := ids + [LF] + floats + CRLF;
    AddLayout(before, line, count + U64(numBytes), ids, floats);
    SameInside(before, line, count + U64(numBytes), count + U64(size), rest);
    SameNumber(count, numBytes, size);
  }

  lemma AddLayout(before: Bytes, line: Bytes, header: Bytes, ids: Bytes, floats: Bytes)
    ensures before + (line + header + [LF]) + ids + [LF] + floats + CRLF
            == before + (line + (header + [LF] + (ids + [LF] + floats + CRLF)))
  {
  }

  lemma SameInside(before: Bytes, line: Bytes, x: Bytes, y: Bytes, rest: Bytes)
    requires |x| == |y|
    ensures before + (line + (x + [LF] + rest)) == before + (line + (y + [LF] + rest)) <==> x == y
  {
    var a, b := before + (line + (x + [LF] + rest)), before + (line + (y + [LF] + rest));
    var at := |before| + |line|;
    assert a[at..at + |x|] == x;
    assert b[at..at + |y|] == y;
  }

  lemma SameNumber(front: Bytes, a: nat, b: nat)
    requires a < TWO64 && b < TWO64
    ensures front + U64(a) == front + U64(b) <==> a == b
  {
    TakeU64Back(a, []);
    TakeU64Back(b, []);
    assert (front + U64(a))[|front|..] == U64(a);
    assert (front + U64(b))[|front|..] == U64(b);
  }

  // ---------- what the readers compute ----------

  /** Reading the first numFloats floats needs the first 4 * numFloats bytes only. */
  lemma {:induction false} FloatsOfPrefix(bs: Bytes, numFloats: nat)
    requires |bs| >= 4 * numFloats
    ensures TakeFloats(bs[..4 * numFloats], numFloats).Some? && TakeFloats(bs, numFloats).Some?
    ensures TakeFloats(bs[..4 * numFloats], numFloats).value.0 == TakeFloats(bs, numFloats).value.0
  {
    if numFloats > 0 {
      assert bs[..4 * numFloats][4..] == bs[4..][..4 * (numFloats - 1)];
      FloatsOfPrefix(bs[4..], numFloats - 1);
    }
  }
}

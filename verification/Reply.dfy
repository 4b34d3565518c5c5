/** A search reply on the wire: the format, and the server's side of it. Records are serialized
    field by field at an advancing index and leave through the session's output buffer in
    chunks of at most 1024 bytes. */
module Reply {
  import opened Bytes
  import opened Framing

  // ---------- the format ----------

  /** A length and that many bytes. */
  function EncodeString(b: Bytes): Bytes {
    U64(|b|) + b
  }

  function EncodeVec(v: Vec): Bytes {
    U64(|v|) + FloatBytes(v)
  }

  function EncodeRecord(r: Record): (b: Bytes)
    ensures |b| == 32 + |r.id| + 4 * |r.embedding| + |r.document| + |r.metadata|
  {
    EncodeString(r.id) + EncodeVec(r.embedding) + EncodeString(r.document) + EncodeString(r.metadata)
  }

  function EncodeRecords(rs: seq<Record>): Bytes {
    if rs == [] then [] else EncodeRecord(rs[0]) + EncodeRecords(rs[1..])
  }

  /** Where the slots of query i start: i * k, counted by addition. */
  function Start(i: nat, k: nat): nat {
    if i == 0 then 0 else Start(i - 1, k) + k
  }

  lemma {:induction false} StartIs(i: nat, k: nat)
    ensures Start(i, k) == i * k
  {
    if i > 0 {
      StartIs(i - 1, k);
      Times(i - 1, 1, k);
    }
  }

  /** The records a query reports, of the k slots that are its own: none on a miss. */
  function Reported(slots: seq<Record>, k: nat, i: nat, hits: int): (r: seq<Record>)
    ensures hits <= 0 ==> r == []
  {
    Slice(slots, Start(i, k), hits)
  }

  function Slice(slots: seq<Record>, from: nat, len: int): seq<Record> {
    if 0 <= len && from + len <= |slots| then slots[from..from + len] else []
  }

  predicate FitsInt(h: int) {
    -TWO31 <= h < TWO31
  }

  function EncodeAnswer(hits: int, rs: seq<Record>): Bytes
    requires FitsInt(hits)
  {
    I32(hits) + EncodeRecords(rs)
  }

  /** The answers to queries i, i + 1, and so on. */
  function EncodeFrom(cacheHits: seq<int>, slots: seq<Record>, k: nat, i: nat): Bytes
    requires i <= |cacheHits| && forall h | h in cacheHits :: FitsInt(h)
    decreases |cacheHits| - i
  {
    if i == |cacheHits| then []
    else EncodeAnswer(cacheHits[i], Reported(slots, k, i, cacheHits[i])) + EncodeFrom(cacheHits, slots, k, i + 1)
  }

  // ---------- reading it ----------

  function TakeString(bs: Bytes): (r: Option<(Bytes, Bytes)>)
    ensures r.Some? ==> |r.value.1| < |bs|
  {
    var (n, b1) :- TakeU64(bs);
    TakeBytes(b1, n)
  }

  function TakeVec(bs: Bytes): Option<(Vec, Bytes)> {
    var (n, b1) :- TakeU64(bs);
    TakeFloats(b1, n)
  }

  function TakeRecord(bs: Bytes): Option<(Record, Bytes)> {
    var (id, b1) :- TakeString(bs);
    var (embedding, b2) :- TakeVec(b1);
    var (document, b3) :- TakeString(b2);
    var (metadata, b4) :- TakeString(b3);
    Some((Record(id, embedding, document, metadata), b4))
  }

  function TakeRecords(n: nat, bs: Bytes): Option<(seq<Record>, Bytes)> {
    TakeMany(TakeRecord, n, bs)
  }

  /** A count and that many records; a negative count brings none. */
  function TakeAnswer(bs: Bytes): Option<(seq<Record>, Bytes)> {
    var (n, b1) :- TakeI32(bs);
    TakeRecords(if n < 0 then 0 else n, b1)
  }

  function TakeAnswers(n: nat, bs: Bytes): Option<(seq<seq<Record>>, Bytes)> {
    TakeMany(TakeAnswer, n, bs)
  }

  // ---------- reading undoes writing ----------

  /** Every length fits the 64 bits it is sent in. */
  predicate Sendable(r: Record) {
    |r.id| < TWO64 && |r.embedding| < TWO64 && |r.document| < TWO64 && |r.metadata| < TWO64
  }

  lemma StringRoundTrip(b: Bytes, tail: Bytes)
    requires |b| < TWO64
    ensures TakeString(EncodeString(b) + tail) == Some((b, tail))
  {
    Assoc(U64(|b|), b, tail);
    TakeU64Back(|b|, b + tail);
    assert (b + tail)[..|b|] == b && (b + tail)[|b|..] == tail;
  }

  lemma VecRoundTrip(v: Vec, tail: Bytes)
    requires |v| < TWO64
    ensures TakeVec(EncodeVec(v) + tail) == Some((v, tail))
  {
    Assoc(U64(|v|), FloatBytes(v), tail);
    TakeU64Back(|v|, FloatBytes(v) + tail);
    TakeFloatsBack(v, tail);
  }

  lemma FourParts(a: Bytes, b: Bytes, c: Bytes, d: Bytes, tail: Bytes)
    ensures a + b + c + d + tail == a + (b + (c + (d + tail)))
  {
  }

  lemma RecordRoundTrip(r: Record, tail: Bytes)
    requires Sendable(r)
    ensures TakeRecord(EncodeRecord(r) + tail) == Some((r, tail))
  {
    var d := EncodeString(r.metadata) + tail;
    var c := EncodeString(r.document) + d;
    var b := EncodeVec(r.embedding) + c;
    FourParts(EncodeString(r.id), EncodeVec(r.embedding), EncodeString(r.document), EncodeString(r.metadata), tail);
    StringRoundTrip(r.id, b);
    VecRoundTrip(r.embedding, c);
    StringRoundTrip(r.document, d);
    StringRoundTrip(r.metadata, tail);
  }

  lemma {:induction false} RecordsRoundTrip(rs: seq<Record>, tail: Bytes)
    requires forall r | r in rs :: Sendable(r)
    ensures TakeRecords(|rs|, EncodeRecords(rs) + tail) == Some((rs, tail))
    decreases |rs|
  {
    if rs == [] {
      assert [] + tail == tail;
    } else {
      var more := EncodeRecords(rs[1..]);
      Assoc(EncodeRecord(rs[0]), more, tail);
      RecordRoundTrip(rs[0], more + tail);
      RecordsRoundTrip(rs[1..], tail);
      assert rs == [rs[0]] + rs[1..];
    }
  }

  lemma AnswerRoundTrip(hits: int, rs: seq<Record>, tail: Bytes)
    requires FitsInt(hits) && |rs| == (if hits < 0 then 0 else hits) && forall r | r in rs :: Sendable(r)
    ensures TakeAnswer(EncodeAnswer(hits, rs) + tail) == Some((rs, tail))
  {
    Assoc(I32(hits), EncodeRecords(rs), tail);
    TakeI32Back(hits, EncodeRecords(rs) + tail);
    RecordsRoundTrip(rs, tail);
  }

  /** What the client should end up with for queries i, i + 1, and so on. */
  function ReportedFrom(cacheHits: seq<int>, slots: seq<Record>, k: nat, i: nat): (r: seq<seq<Record>>)
    requires i <= |cacheHits|
    ensures |r| == |cacheHits| - i
    decreases |cacheHits| - i
  {
    if i == |cacheHits| then []
    else [Reported(slots, k, i, cacheHits[i])] + ReportedFrom(cacheHits, slots, k, i + 1)
  }

  /** A query's hits lie in its own slots. */
  lemma {:induction false} OwnSlots(n: nat, k: nat, i: nat)
    requires i < n
    ensures Start(i, k) + k <= Start(n, k)
    decreases n
  {
    if i < n - 1 {
      OwnSlots(n - 1, k, i);
    }
  }

  /** Every query's hits lie within the slots. */
  ghost predicate Roomy(cacheHits: seq<int>, slots: seq<Record>, k: nat) {
    forall i | 0 <= i < |cacheHits| :: Start(i, k) + cacheHits[i] <= |slots|
  }

  lemma HitsAreRoomy(cacheHits: seq<int>, slots: seq<Record>, k: nat)
    requires |slots| == |cacheHits| * k && forall h | h in cacheHits :: h <= k
    ensures Roomy(cacheHits, slots, k)
  {
    StartIs(|cacheHits|, k);
    forall i | 0 <= i < |cacheHits|
      ensures Start(i, k) + cacheHits[i] <= |slots|
    {
      assert cacheHits[i] in cacheHits;
      OwnSlots(|cacheHits|, k, i);
    }
  }

  /** For any hit counts and records: each query gets exactly the first cacheHits[i] records of
      its own k slots, a miss gets none, and no byte is left over. */
  lemma ReplyRoundTrip(cacheHits: seq<int>, slots: seq<Record>, k: nat, tail: Bytes)
    requires |slots| == |cacheHits| * k
    requires forall h | h in cacheHits :: FitsInt(h) && h <= k
    requires forall r | r in slots :: Sendable(r)
    ensures TakeAnswers(|cacheHits|, EncodeFrom(cacheHits, slots, k, 0) + tail)
            == Some((ReportedFrom(cacheHits, slots, k, 0), tail))
  {
    HitsAreRoomy(cacheHits, slots, k);
    RoundTripFrom(cacheHits, slots, k, 0, tail);
  }

  lemma {:induction false} RoundTripFrom(cacheHits: seq<int>, slots: seq<Record>, k: nat, i: nat, tail: Bytes)
    requires i <= |cacheHits| && Roomy(cacheHits, slots, k)
    requires forall h | h in cacheHits :: FitsInt(h)
    requires forall r | r in slots :: Sendable(r)
    ensures TakeAnswers(|cacheHits| - i, EncodeFrom(cacheHits, slots, k, i) + tail)
            == Some((ReportedFrom(cacheHits, slots, k, i), tail))
    decreases |cacheHits| - i
  {
    if i == |cacheHits| {
      assert [] + tail == tail;
    } else {
      var hits := cacheHits[i];
      var rs := Reported(slots, k, i, hits);
      RoundTripFrom(cacheHits, slots, k, i + 1, tail);
      ReportedOf(cacheHits, slots, k, i);
      OneMoreAnswer(|cacheHits| - i - 1, hits, rs, EncodeFrom(cacheHits, slots, k, i + 1),
                    ReportedFrom(cacheHits, slots, k, i + 1), tail);
    }
  }

  lemma ReportedOf(cacheHits: seq<int>, slots: seq<Record>, k: nat, i: nat)
    requires i < |cacheHits| && Roomy(cacheHits, slots, k)
    ensures |Reported(slots, k, i, cacheHits[i])| == if cacheHits[i] < 0 then 0 else cacheHits[i]
    ensures forall r | r in Reported(slots, k, i, cacheHits[i]) :: r in slots
  {
    SliceOf(slots, Start(i, k), cacheHits[i]);
  }

  lemma SliceOf(slots: seq<Record>, from: nat, hits: int)
    requires from + hits <= |slots|
    ensures |Slice(slots, from, hits)| == if hits < 0 then 0 else hits
    ensures forall r | r in Slice(slots, from, hits) :: r in slots
  {
  }

  lemma OneMoreAnswer(n: nat, hits: int, rs: seq<Record>, more: Bytes, rest: seq<seq<Record>>, tail: Bytes)
    requires FitsInt(hits) && |rs| == (if hits < 0 then 0 else hits) && forall r | r in rs :: Sendable(r)
    requires TakeAnswers(n, more + tail) == Some((rest, tail))
    ensures TakeAnswers(n + 1, EncodeAnswer(hits, rs) + more + tail) == Some(([rs] + rest, tail))
  {
    AnswerRoundTrip(hits, rs, more + tail);
    Assoc(EncodeAnswer(hits, rs), more, tail);
  }

  // ---------- Data::serialize ----------

  /** memcpy(&dst[at], src, |src|) */
  method CopyInto(dst: array<byte>, at: nat, src: Bytes)
    requires at + |src| <= dst.Length
    modifies dst
    ensures dst[..at + |src|] == old(dst[..at]) + src
    ensures dst[at + |src|..] == old(dst[at + |src|..])
  {
    forall p | 0 <= p < |src| {
      dst[at + p] := src[p];
    }
    assert forall p | 0 <= p < at + |src| :: dst[..at + |src|][p] == (old(dst[..at]) + src)[p];
  }

  method Serialize(r: Record) returns (bytes: array<byte>)
    ensures fresh(bytes) && bytes[..] == EncodeRecord(r)
  {
    var vectorSize := 4 * 8 + |r.id| + |r.document| + |r.metadata| + 4 * |r.embedding|;
    bytes := new byte[vectorSize];
    var index := 0;
    assert bytes[..0] == [];
    index := PutString(bytes, index, r.id);
    CopyInto(bytes, index, U64(|r.embedding|));
    index := index + 8;
    CopyInto(bytes, index, FloatBytes(r.embedding));
    index := index + 4 * |r.embedding|;
    assert bytes[..index] == EncodeString(r.id) + EncodeVec(r.embedding);
    index := PutString(bytes, index, r.document);
    index := PutString(bytes, index, r.metadata);
    assert bytes[..index] == bytes[..];
  }

  /** One length and its bytes, and the index after them. */
  method PutString(bytes: array<byte>, at: nat, s: Bytes) returns (index: nat)
    requires at + 8 + |s| <= bytes.Length
    modifies bytes
    ensures index == at + 8 + |s| && bytes[..index] == old(bytes[..at]) + EncodeString(s)
  {
    index := at;
    CopyInto(bytes, index, U64(|s|));
    index := index + 8;
    CopyInto(bytes, index, s);
    index := index + |s|;
    Assoc(old(bytes[..at]), U64(|s|), s);
  }

  // ---------- the session's output ----------

  const MAX_LENGTH: nat := 1024

  /** A session's output buffer and the writes made from it. */
  class Output {
    const buffer: array<byte>
    var sent: seq<Bytes>

    constructor ()
      ensures fresh(buffer) && buffer.Length == MAX_LENGTH && sent == []
    {
      buffer := new byte[MAX_LENGTH];
      sent := [];
    }

    method SyncWrite(length: nat)
      requires length <= buffer.Length
      modifies `sent
      ensures sent == old(sent) + [buffer[..length]]
    {
      sent := sent + [buffer[..length]];
    }

    /** memcpy into the buffer, then a write of it. */
    method Write(bytes: Bytes)
      requires |bytes| <= buffer.Length
      modifies `sent, buffer
      ensures sent == old(sent) + [bytes]
    {
      assert buffer[..0] == [];
      CopyInto(buffer, 0, bytes);
      assert [] + bytes == bytes;
      SyncWrite(|bytes|);
    }

    /** The chunk loop: what is written adds up to the bytes given, in full chunks of 1024 and
        a last one with the rest, which is empty only if there was nothing to send. The size_t
        difference in the guard never wraps. */
    method SendChunks(bytes: array<byte>)
      requires bytes.Length < TWO64 && buffer.Length == MAX_LENGTH && bytes != buffer
      modifies `sent, buffer
      ensures old(sent) < sent
      ensures var chunks := sent[|old(sent)|..];
              && Concat(chunks) == bytes[..]
              && (forall c | 0 <= c < |chunks| - 1 :: |chunks[c]| == 1024)
              && |chunks[|chunks| - 1]| <= 1024
              && (bytes.Length > 0 ==> |chunks[|chunks| - 1]| > 0)
    {
      var l: nat := 0;
      ghost var chunks: seq<Bytes> := [];
      while bytes.Length >= MAX_LENGTH && l < Wrap64(bytes.Length - MAX_LENGTH)
        invariant l <= bytes.Length && (l > 0 ==> l < bytes.Length)
        invariant sent == old(sent) + chunks && Concat(chunks) == bytes[..l]
        invariant forall c | 0 <= c < |chunks| :: |chunks[c]| == MAX_LENGTH
      {
        ghost var chunk := bytes[l..l + MAX_LENGTH];
        Write(bytes[l..l + MAX_LENGTH]);
        ConcatAppend(chunks, chunk);
        assert bytes[..l] + chunk == bytes[..l + MAX_LENGTH];
        chunks := chunks + [chunk];
        l := l + MAX_LENGTH;
      }
      Write(bytes[l..]);
      ConcatAppend(chunks, bytes[l..]);
      assert bytes[..l] + bytes[l..] == bytes[..];
      assert sent[|old(sent)|..] == chunks + [bytes[l..]];
    }

    /** The loops over queries and over the records of each. */
    method SendAnswers(n: nat, k: nat, results: array<Record>, cacheHits: array<int>)
      requires results.Length == n * k && cacheHits.Length == n && buffer.Length == MAX_LENGTH
      requires forall i | 0 <= i < n :: FitsInt(cacheHits[i]) && cacheHits[i] <= k
      requires forall r | r in results[..] :: |EncodeRecord(r)| < TWO64
      modifies `sent, buffer
      ensures old(sent) <= sent
      ensures Concat(sent) == Concat(old(sent)) + EncodeFrom(cacheHits[..], results[..], k, 0)
    {
      ghost var hits, slots := cacheHits[..], results[..];
      ghost var all := EncodeFrom(hits, slots, k, 0);
      HitsAreRoomy(hits, slots, k);
      for i := 0 to n
        invariant old(sent) <= sent
        invariant Concat(sent) + EncodeFrom(hits, slots, k, i) == Concat(old(sent)) + all
      {
        ghost var before := Concat(sent);
        StartIs(i, k);
        assert hits[i] == cacheHits[i];
        SendAnswer(i * k, results, cacheHits[i]);
        Assoc(before, EncodeAnswer(hits[i], Reported(slots, k, i, hits[i])), EncodeFrom(hits, slots, k, i + 1));
      }
      assert Concat(sent) + [] == Concat(sent);
    }

    /** The count of one query and its records, which start at slot from. */
    method SendAnswer(from: nat, results: array<Record>, hits: int)
      requires buffer.Length == MAX_LENGTH && FitsInt(hits) && from + hits <= results.Length
      requires forall r | r in results[..] :: |EncodeRecord(r)| < TWO64
      modifies `sent, buffer
      ensures old(sent) <= sent
      ensures Concat(sent) == Concat(old(sent)) + EncodeAnswer(hits, Slice(results[..], from, hits))
    {
      ghost var rs := Slice(results[..], from, hits);
      Write(I32(hits));
      ConcatAppend(old(sent), I32(hits));
      var j := 0;
      assert rs[..0] == [];
      while hits > -1 && j < hits
        invariant 0 <= j <= |rs|
        invariant old(sent) <= sent
        invariant Concat(sent) == Concat(old(sent)) + I32(hits) + EncodeRecords(rs[..j])
      {
        ghost var before := sent;
        assert results[from + j] == rs[j] && results[from + j] in results[..];
        var bytes := Serialize(results[from + j]);
        SendChunks(bytes);
        ConcatSplit(before, sent);
        EncodeOneMore(rs, j);
        Assoc(Concat(old(sent)) + I32(hits), EncodeRecords(rs[..j]), EncodeRecord(rs[j]));
        j := j + 1;
      }
      assert rs[..j] == rs;
      Assoc(Concat(old(sent)), I32(hits), EncodeRecords(rs));
    }
  }

  lemma {:induction false} ConcatAppend(pieces: seq<Bytes>, last: Bytes)
    ensures Concat(pieces + [last]) == Concat(pieces) + last
  {
    if pieces == [] {
      assert [] + [last] == [last];
      assert [last][1..] == [];
    } else {
      assert (pieces + [last])[1..] == pieces[1..] + [last];
      ConcatAppend(pieces[1..], last);
    }
  }

  lemma {:induction false} ConcatSplit(before: seq<Bytes>, after: seq<Bytes>)
    requires before <= after
    ensures Concat(after) == Concat(before) + Concat(after[|before|..])
    decreases |before|
  {
    if before == [] {
      assert after[0..] == after;
    } else {
      assert before[0] == after[0];
      assert after[1..][|before[1..]|..] == after[|before|..];
      ConcatSplit(before[1..], after[1..]);
    }
  }

  lemma EncodeOneMore(rs: seq<Record>, j: nat)
    requires j < |rs|
    ensures EncodeRecords(rs[..j + 1]) == EncodeRecords(rs[..j]) + EncodeRecord(rs[j])
  {
    assert rs[..j + 1] == rs[..j] + [rs[j]];
    EncodeAppend(rs[..j], rs[j]);
  }

  lemma {:induction false} EncodeAppend(rs: seq<Record>, last: Record)
    ensures EncodeRecords(rs + [last]) == EncodeRecords(rs) + EncodeRecord(last)
  {
    if rs == [] {
      assert [] + [last] == [last] && [last][1..] == [];
      assert EncodeRecords([last]) == EncodeRecord(last) + EncodeRecords([]);
      assert EncodeRecord(last) + [] == [] + EncodeRecord(last);
    } else {
      assert (rs + [last])[1..] == rs[1..] + [last] && (rs + [last])[0] == rs[0];
      EncodeAppend(rs[1..], last);
      Assoc(EncodeRecord(rs[0]), EncodeRecords(rs[1..]), EncodeRecord(last));
    }
  }
}

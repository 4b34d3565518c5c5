/** Command arguments on the wire: what the client writes for each command, what the server's
    readers make of any byte string, and that the second undoes the first. */
module Args {
  import opened Bytes
  import opened Commands

  /** The fixed part of a command, as deserialize_static fills it in. */
  datatype Header =
    | InitializeHeader(d: nat, maxMem: nat, nTotal: nat, useFlat: bool, size: nat)
    | TrainHeader(size: nat)
    | LoadHeader(nload: nat, size: nat)
    | SearchHeader(n: nat, k: nat, nprobe: nat, requireAll: bool, size: nat)
    | EvictHeader(nevict: nat, size: nat)
    | AddHeader(numDocs: nat, size: nat)

  /** A completed Args object. */
  datatype Args =
    | InitializeArgs(d: nat, maxMem: nat, nTotal: nat, useFlat: bool, dbUrl: Bytes)
    | TrainArgs(data: Vec)
    | LoadArgs(nload: nat, xq: Vec)
    | SearchArgs(n: nat, k: nat, nprobe: nat, requireAll: bool, xq: Vec)
    | EvictArgs(nevict: nat, xq: Vec)
    | AddArgs(ids: seq<Bytes>, embeddings: Vec)

  function CommandOf(a: Args): Command {
    match a
    case InitializeArgs(_, _, _, _, _) => INITIALIZE
    case TrainArgs(_) => TRAIN
    case LoadArgs(_, _) => LOAD
    case SearchArgs(_, _, _, _, _) => SEARCH
    case EvictArgs(_, _) => EVICT
    case AddArgs(_, _) => ADD
  }

  const CRLF: Bytes := [CR, LF]

  /** get_static_size: the bytes the session waits for before it calls deserialize_static. */
  function StaticSize(c: Command): nat {
    match c
    case INITIALIZE => 4 * 8 + 1 + 1
    case TRAIN => 9
    case LOAD => 2 * 8 + 1
    case SEARCH => 4 * 8 + 1 + 1
    case EVICT => 2 * 8 + 1
    case ADD => 8 + 1
  }

  // ---------- the client's encoding ----------

  function BoolByte(b: bool): Bytes {
    [if b then 1 else 0]
  }

  /** The ids of an ADD, each behind its length. */
  function IdBytes(ids: seq<Bytes>): Bytes {
    if ids == [] then [] else U64(|ids[0]|) + ids[0] + IdBytes(ids[1..])
  }

  function IdTotal(ids: seq<Bytes>): nat {
    if ids == [] then 0 else |ids[0]| + 8 + IdTotal(ids[1..])
  }

  /** The declared size of the dynamic part. */
  function DynamicSize(a: Args): nat {
    match a
    case InitializeArgs(_, _, _, _, url) => |url|
    case TrainArgs(data) => 4 * |data|
    case LoadArgs(_, xq) => 4 * |xq|
    case SearchArgs(_, _, _, _, xq) => 4 * |xq|
    case EvictArgs(_, xq) => 4 * |xq|
    case AddArgs(ids, embeddings) => IdTotal(ids) + 1 + 4 * |embeddings|
  }

  function HeaderOf(a: Args): Header {
    match a
    case InitializeArgs(d, maxMem, nTotal, useFlat, _) => InitializeHeader(d, maxMem, nTotal, useFlat, DynamicSize(a))
    case TrainArgs(_) => TrainHeader(DynamicSize(a))
    case LoadArgs(nload, _) => LoadHeader(nload, DynamicSize(a))
    case SearchArgs(n, k, nprobe, requireAll, _) => SearchHeader(n, k, nprobe, requireAll, DynamicSize(a))
    case EvictArgs(nevict, _) => EvictHeader(nevict, DynamicSize(a))
    case AddArgs(ids, _) => AddHeader(|ids|, DynamicSize(a))
  }

  /** The static part, without its delimiter. */
  function StaticBytes(h: Header): Bytes {
    match h
    case InitializeHeader(d, maxMem, nTotal, useFlat, size) =>
      U64(d) + (U64(maxMem) + (U64(nTotal) + (BoolByte(useFlat) + U64(size))))
    case TrainHeader(size) => U64(size)
    case LoadHeader(nload, size) => U64(nload) + U64(size)
    case SearchHeader(n, k, nprobe, requireAll, size) =>
      U64(n) + (U64(k) + (U64(nprobe) + (BoolByte(requireAll) + U64(size))))
    case EvictHeader(nevict, size) => U64(nevict) + U64(size)
    case AddHeader(numDocs, size) => U64(numDocs) + U64(size)
  }

  /** The dynamic part, without its delimiter. */
  function DynamicBytes(a: Args): Bytes {
    match a
    case InitializeArgs(_, _, _, _, url) => url
    case TrainArgs(data) => FloatBytes(data)
    case LoadArgs(_, xq) => FloatBytes(xq)
    case SearchArgs(_, _, _, _, xq) => FloatBytes(xq)
    case EvictArgs(_, xq) => FloatBytes(xq)
    case AddArgs(ids, embeddings) => IdBytes(ids) + [LF] + FloatBytes(embeddings)
  }

  /** What comes after the command line. */
  function Body(a: Args): Bytes {
    StaticBytes(HeaderOf(a)) + [LF] + (DynamicBytes(a) + CRLF)
  }

  /** A whole command as it is sent. */
  function Frame(a: Args): Bytes {
    WordOf(CommandOf(a)) + CRLF + Body(a)
  }

  /** Every number fits the wire's 64 bits, and so does the number of bytes awaited. */
  predicate Packable(a: Args) {
    && DynamicSize(a) + 2 < TWO64
    && match a
       case InitializeArgs(d, maxMem, nTotal, _, _) => d < TWO64 && maxMem < TWO64 && nTotal < TWO64
       case TrainArgs(_) => true
       case LoadArgs(nload, _) => nload < TWO64
       case SearchArgs(n, k, nprobe, _, _) => n < TWO64 && k < TWO64 && nprobe < TWO64
       case EvictArgs(nevict, _) => nevict < TWO64
       case AddArgs(ids, _) => true
  }

  // ---------- the server's readers, on any byte string ----------
  // None: a read ran out of bytes, and the rethrow without an exception ends the process.

  function TakeBool(bs: Bytes): Option<(bool, Bytes)> {
    if bs == [] then None else Some((bs[0] != 0, bs[1..]))
  }

  /** The delimiters are consumed but, beyond a message, not enforced. */
  function Skip(bs: Bytes, n: nat): Option<Bytes> {
    if |bs| < n then None else Some(bs[n..])
  }

  function ParseStatic(c: Command, bs: Bytes): Option<(Header, Bytes)> {
    match c
    case INITIALIZE =>
      var (d, b1) :- TakeU64(bs);
      var (maxMem, b2) :- TakeU64(b1);
      var (nTotal, b3) :- TakeU64(b2);
      var (useFlat, b4) :- TakeBool(b3);
      var (size, b5) :- TakeU64(b4);
      var rest :- Skip(b5, 1);
      Some((InitializeHeader(d, maxMem, nTotal, useFlat, size), rest))
    case TRAIN =>
      var (size, b1) :- TakeU64(bs);
      var rest :- Skip(b1, 1);
      Some((TrainHeader(size), rest))
    case LOAD =>
      var (nload, b1) :- TakeU64(bs);
      var (size, b2) :- TakeU64(b1);
      var rest :- Skip(b2, 1);
      Some((LoadHeader(nload, size), rest))
    case SEARCH =>
      var (n, b1) :- TakeU64(bs);
      var (k, b2) :- TakeU64(b1);
      var (nprobe, b3) :- TakeU64(b2);
      var (requireAll, b4) :- TakeBool(b3);
      var (size, b5) :- TakeU64(b4);
      var rest :- Skip(b5, 1);
      Some((SearchHeader(n, k, nprobe, requireAll, size), rest))
    case EVICT =>
      var (nevict, b1) :- TakeU64(bs);
      var (size, b2) :- TakeU64(b1);
      var rest :- Skip(b2, 1);
      Some((EvictHeader(nevict, size), rest))
    case ADD =>
      var (numDocs, b1) :- TakeU64(bs);
      var (size, b2) :- TakeU64(b1);
      var rest :- Skip(b2, 1);
      Some((AddHeader(numDocs, size), rest))
  }

  /** deserialize_static needs this many bytes. */
  function StaticNeeded(c: Command): nat {
    match c
    case INITIALIZE => 34
    case TRAIN => 9
    case LOAD => 17
    case SEARCH => 34
    case EVICT => 17
    case ADD => 17
  }

  /** The static part can be read exactly when that many bytes are there; what the session
      waits for is that many for every command but ADD. */
  lemma StaticSizesAgreeExceptAdd(c: Command, bs: Bytes)
    ensures ParseStatic(c, bs).Some? <==> |bs| >= StaticNeeded(c)
    ensures ParseStatic(c, bs).Some? ==> ParseStatic(c, bs).value.1 == bs[StaticNeeded(c)..]
    ensures StaticSize(c) == StaticNeeded(c) <==> c != ADD
    ensures StaticSize(ADD) == 9 && StaticNeeded(ADD) == 17
  {
  }

  /** Reads numDocs length-prefixed ids; total is the running totalSize, modulo 2^64. */
  function ParseIds(numDocs: nat, total: nat, bs: Bytes): Option<(seq<Bytes>, nat, Bytes)> {
    if numDocs == 0 then Some(([], total, bs))
    else
      var (idLen, b1) :- TakeU64(bs);
      var (id, b2) :- TakeBytes(b1, idLen);
      var (ids, t, rest) :- ParseIds(numDocs - 1, Wrap64(total + idLen + 8), b2);
      Some(([id] + ids, t, rest))
  }

  /** size / sizeof(float) */
  function FloatsIn(size: nat): (n: nat)
    ensures 4 * n <= size < 4 * n + 4
  {
    size / 4
  }

  /** (size - totalSize) / sizeof(float) in size_t. */
  function NumFloats(size: nat, total: nat): nat {
    FloatsIn(Wrap64(size - total))
  }

  function ParseFloats(size: nat, bs: Bytes): Option<(Vec, Bytes)> {
    var (v, b1) :- TakeFloats(bs, FloatsIn(size));
    var rest :- Skip(b1, 2);
    Some((v, rest))
  }

  function ParseDynamic(h: Header, bs: Bytes): Option<(Args, Bytes)> {
    match h
    case InitializeHeader(d, maxMem, nTotal, useFlat, size) =>
      var (url, b1) :- TakeBytes(bs, size);
      var rest :- Skip(b1, 2);
      Some((InitializeArgs(d, maxMem, nTotal, useFlat, url), rest))
    case TrainHeader(size) =>
      var (v, rest) :- ParseFloats(size, bs);
      Some((TrainArgs(v), rest))
    case LoadHeader(nload, size) =>
      var (v, rest) :- ParseFloats(size, bs);
      Some((LoadArgs(nload, v), rest))
    case SearchHeader(n, k, nprobe, requireAll, size) =>
      var (v, rest) :- ParseFloats(size, bs);
      Some((SearchArgs(n, k, nprobe, requireAll, v), rest))
    case EvictHeader(nevict, size) =>
      var (v, rest) :- ParseFloats(size, bs);
      Some((EvictArgs(nevict, v), rest))
    case AddHeader(numDocs, size) =>
      ParseAdd(numDocs, size, bs)
  }

  function ParseAdd(numDocs: nat, size: nat, bs: Bytes): Option<(Args, Bytes)> {
    var (ids, total, b1) :- ParseIds(numDocs, 0, bs);
    ParseEmbeddings(ids, NumFloats(size, Wrap64(total + 1)), b1)
  }

  /** What follows the ids of an ADD: a delimiter, that many floats, the end delimiter. */
  function ParseEmbeddings(ids: seq<Bytes>, numFloats: nat, bs: Bytes): Option<(Args, Bytes)> {
    var b1 :- Skip(bs, 1);
    var (v, b2) :- TakeFloats(b1, numFloats);
    var rest :- Skip(b2, 2);
    Some((AddArgs(ids, v), rest))
  }

  // ---------- round trips ----------

  lemma StaticRoundTrip(a: Args, tail: Bytes)
    requires Packable(a)
    ensures ParseStatic(CommandOf(a), StaticBytes(HeaderOf(a)) + [LF] + tail) == Some((HeaderOf(a), tail))
  {
    var end := [LF] + tail;
    var size := DynamicSize(a);
    TakeU64Back(size, end);
    assert end[1..] == tail;
    Assoc(StaticBytes(HeaderOf(a)), [LF], tail);
    match a
    case InitializeArgs(d, maxMem, nTotal, useFlat, _) =>
      FourAndBool(d, maxMem, nTotal, useFlat, size, end);
    case TrainArgs(_) =>
    case LoadArgs(nload, _) =>
      Two(nload, size, end);
    case SearchArgs(n, k, nprobe, requireAll, _) =>
      FourAndBool(n, k, nprobe, requireAll, size, end);
    case EvictArgs(nevict, _) =>
      Two(nevict, size, end);
    case AddArgs(ids, _) =>
      IdTotalBound(ids);
      Two(|ids|, size, end);
  }

  lemma Two(x: nat, size: nat, end: Bytes)
    requires x < TWO64 && size < TWO64
    ensures TakeU64(U64(x) + U64(size) + end) == Some((x, U64(size) + end))
    ensures TakeU64(U64(size) + end) == Some((size, end))
  {
    Assoc(U64(x), U64(size), end);
    TakeU64Back(x, U64(size) + end);
    TakeU64Back(size, end);
  }

  lemma FourAndBool(x: nat, y: nat, z: nat, b: bool, size: nat, end: Bytes)
    requires x < TWO64 && y < TWO64 && z < TWO64 && size < TWO64
    ensures var e4 := U64(size) + end;
            var e3 := BoolByte(b) + e4;
            var e2 := U64(z) + e3;
            var e1 := U64(y) + e2;
            && U64(x) + (U64(y) + (U64(z) + (BoolByte(b) + U64(size)))) + end == U64(x) + e1
            && TakeU64(U64(x) + e1) == Some((x, e1)) && TakeU64(e1) == Some((y, e2)) && TakeU64(e2) == Some((z, e3))
            && TakeBool(e3) == Some((b, e4)) && TakeU64(e4) == Some((size, end))
  {
    var e4 := U64(size) + end;
    var e3 := BoolByte(b) + e4;
    var e2 := U64(z) + e3;
    var e1 := U64(y) + e2;
    Assoc(U64(x), U64(y) + (U64(z) + (BoolByte(b) + U64(size))), end);
    Assoc(U64(y), U64(z) + (BoolByte(b) + U64(size)), end);
    Assoc(U64(z), BoolByte(b) + U64(size), end);
    Assoc(BoolByte(b), U64(size), end);
    TakeU64Back(x, e1);
    TakeU64Back(y, e2);
    TakeU64Back(z, e3);
    TakeU64Back(size, end);
    assert e3[1..] == e4;
  }

  lemma {:induction false} IdTotalBound(ids: seq<Bytes>)
    ensures |ids| <= IdTotal(ids) && |IdBytes(ids)| == IdTotal(ids)
  {
    if ids != [] {
      IdTotalBound(ids[1..]);
    }
  }

  /** Length-prefixed ids of any lengths come back, and totalSize counts their bytes exactly. */
  lemma {:induction false} IdsRoundTrip(ids: seq<Bytes>, total: nat, end: nat, tail: Bytes)
    requires total + IdTotal(ids) == end < TWO64
    ensures ParseIds(|ids|, total, IdBytes(ids) + tail) == Some((ids, end, tail))
    decreases |ids|
  {
    if ids == [] {
      assert IdBytes(ids) + tail == tail;
    } else {
      var id, more := ids[0], IdBytes(ids[1..]) + tail;
      OneId(id, ids[1..], tail);
      IdsRoundTrip(ids[1..], total + |id| + 8, end, tail);
      assert ids == [id] + ids[1..];
    }
  }

  lemma OneId(id: Bytes, ids: seq<Bytes>, tail: Bytes)
    requires |id| < TWO64
    ensures var bs := IdBytes([id] + ids) + tail;
            var more := IdBytes(ids) + tail;
            && TakeU64(bs) == Some((|id|, id + more))
            && TakeBytes(id + more, |id|) == Some((id, more))
  {
    var more := IdBytes(ids) + tail;
    assert ([id] + ids)[1..] == ids;
    assert IdBytes([id] + ids) == U64(|id|) + id + IdBytes(ids);
    assert IdBytes([id] + ids) + tail == U64(|id|) + (id + more);
    TakeU64Back(|id|, id + more);
    assert (id + more)[..|id|] == id && (id + more)[|id|..] == more;
  }

  lemma ExactFloats(n: nat)
    ensures FloatsIn(4 * n) == n
  {
  }

  lemma ExactAddFloats(total: nat, n: nat)
    requires total + 1 + 4 * n < TWO64
    ensures NumFloats(total + 1 + 4 * n, total + 1) == n && Wrap64(total + 1) == total + 1
  {
    var rest := total + 1 + 4 * n - (total + 1);
    assert rest == 4 * n;
    assert Wrap64(rest) == rest;
    ExactFloats(n);
  }

  lemma FloatsRoundTrip(v: Vec, tail: Bytes)
    ensures ParseFloats(4 * |v|, FloatBytes(v) + CRLF + tail) == Some((v, tail))
  {
    var end := CRLF + tail;
    assert end[2..] == tail;
    Assoc(FloatBytes(v), CRLF, tail);
    ExactFloats(|v|);
    TakeFloatsBack(v, end);
    assert TakeFloats(FloatBytes(v) + CRLF + tail, FloatsIn(4 * |v|)) == Some((v, end));
  }

  /** For any number of ids of any lengths and any floats: the ids and floats come back, the
      number of floats is exact with no wrap-around below zero, and the declared size is the
      number of bytes before the end delimiter. */
  lemma AddRoundTrip(ids: seq<Bytes>, embeddings: Vec, tail: Bytes)
    requires Packable(AddArgs(ids, embeddings))
    ensures var a := AddArgs(ids, embeddings);
            && ParseDynamic(HeaderOf(a), DynamicBytes(a) + CRLF + tail) == Some((a, tail))
            && NumFloats(DynamicSize(a), IdTotal(ids) + 1) == |embeddings|
            && DynamicSize(a) >= IdTotal(ids) + 1
  {
    AddCounts(ids, embeddings);
    AddFrame(ids, embeddings, tail, DynamicSize(AddArgs(ids, embeddings)), IdTotal(ids));
  }

  lemma AddCounts(ids: seq<Bytes>, embeddings: Vec)
    requires Packable(AddArgs(ids, embeddings))
    ensures var size := DynamicSize(AddArgs(ids, embeddings));
            && NumFloats(size, IdTotal(ids) + 1) == |embeddings|
            && Wrap64(IdTotal(ids) + 1) == IdTotal(ids) + 1 <= size
  {
    ExactAddFloats(IdTotal(ids), |embeddings|);
  }

  lemma AddFrame(ids: seq<Bytes>, embeddings: Vec, tail: Bytes, size: nat, total: nat)
    requires total == IdTotal(ids) < TWO64 && NumFloats(size, Wrap64(total + 1)) == |embeddings|
    ensures ParseDynamic(AddHeader(|ids|, size), DynamicBytes(AddArgs(ids, embeddings)) + CRLF + tail)
            == Some((AddArgs(ids, embeddings), tail))
  {
    AddBytes(ids, embeddings, tail);
    TakeFloatsBack(embeddings, CRLF + tail);
    AddDecodes(ids, embeddings, size, total, [LF] + (FloatBytes(embeddings) + (CRLF + tail)), CRLF + tail);
  }

  lemma AddDecodes(ids: seq<Bytes>, embeddings: Vec, size: nat, total: nat, b1: Bytes, end: Bytes)
    requires total == IdTotal(ids) < TWO64 && NumFloats(size, Wrap64(total + 1)) == |embeddings|
    requires |b1| >= 1 && TakeFloats(b1[1..], |embeddings|) == Some((embeddings, end)) && |end| >= 2
    ensures ParseDynamic(AddHeader(|ids|, size), IdBytes(ids) + b1) == Some((AddArgs(ids, embeddings), end[2..]))
  {
    IdsRoundTrip(ids, 0, total, b1);
    AddParts(|ids|, size, IdBytes(ids) + b1, ids, total, b1, |embeddings|, embeddings, end);
  }

  lemma AddBytes(ids: seq<Bytes>, embeddings: Vec, tail: Bytes)
    ensures DynamicBytes(AddArgs(ids, embeddings)) + CRLF + tail
            == IdBytes(ids) + ([LF] + (FloatBytes(embeddings) + (CRLF + tail)))
    ensures ([LF] + (FloatBytes(embeddings) + (CRLF + tail)))[1..] == FloatBytes(embeddings) + (CRLF + tail)
    ensures (CRLF + tail)[2..] == tail
  {
  }

  /** The steps of reading an ADD, put together. */
  lemma AddParts(numDocs: nat, size: nat, bs: Bytes, ids: seq<Bytes>, total: nat, b1: Bytes, m: nat, v: Vec, b3: Bytes)
    requires ParseIds(numDocs, 0, bs) == Some((ids, total, b1))
    requires |b1| >= 1 && NumFloats(size, Wrap64(total + 1)) == m
    requires TakeFloats(b1[1..], m) == Some((v, b3)) && |b3| >= 2
    ensures ParseDynamic(AddHeader(numDocs, size), bs) == Some((AddArgs(ids, v), b3[2..]))
  {
    EmbeddingParts(ids, m, b1, v, b3);
  }

  lemma EmbeddingParts(ids: seq<Bytes>, m: nat, b1: Bytes, v: Vec, b3: Bytes)
    requires |b1| >= 1 && TakeFloats(b1[1..], m) == Some((v, b3)) && |b3| >= 2
    ensures ParseEmbeddings(ids, m, b1) == Some((AddArgs(ids, v), b3[2..]))
  {
  }

  /** Decoding the dynamic part of any command gives the arguments back and stops at its end. */
  lemma DynamicRoundTrip(a: Args, tail: Bytes)
    requires Packable(a)
    ensures ParseDynamic(HeaderOf(a), DynamicBytes(a) + CRLF + tail) == Some((a, tail))
    ensures |DynamicBytes(a)| == HeaderOf(a).size == DynamicSize(a)
  {
    match a
    case InitializeArgs(_, _, _, _, url) =>
      var bs := url + CRLF + tail;
      Assoc(url, CRLF, tail);
      assert bs[..|url|] == url && bs[|url|..] == CRLF + tail;
      assert (CRLF + tail)[2..] == tail;
    case TrainArgs(data) => FloatsRoundTrip(data, tail);
    case LoadArgs(_, xq) => FloatsRoundTrip(xq, tail);
    case SearchArgs(_, _, _, _, xq) => FloatsRoundTrip(xq, tail);
    case EvictArgs(_, xq) => FloatsRoundTrip(xq, tail);
    case AddArgs(ids, embeddings) =>
      IdTotalBound(ids);
      AddRoundTrip(ids, embeddings, tail);
  }

  lemma StaticLength(a: Args)
    ensures |StaticBytes(HeaderOf(a)) + [LF]| == StaticNeeded(CommandOf(a))
  {
  }

  /** What the server makes of the bytes after a command line. */
  function ParseBody(c: Command, bs: Bytes): Option<(Args, Bytes)> {
    var (h, b1) :- ParseStatic(c, bs);
    ParseDynamic(h, b1)
  }

  lemma BodyRoundTrip(a: Args, tail: Bytes)
    requires Packable(a)
    ensures ParseBody(CommandOf(a), Body(a) + tail) == Some((a, tail))
  {
    BodyParts(StaticBytes(HeaderOf(a)), DynamicBytes(a), tail);
    StaticRoundTrip(a, DynamicBytes(a) + CRLF + tail);
    DynamicRoundTrip(a, tail);
  }

  lemma BodyParts(s: Bytes, dyn: Bytes, tail: Bytes)
    ensures s + [LF] + (dyn + CRLF) + tail == s + [LF] + (dyn + CRLF + tail)
  {
  }
}

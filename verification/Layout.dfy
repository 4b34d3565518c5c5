/** Which byte of a message is which: the formats of requests and replies at their offsets. */
module Layout {
  import opened Bytes
  import opened Commands
  import opened Args
  import opened Reply

  // ---------- numbers and floats ----------

  lemma DivTwice(n: nat, b: nat)
    requires b > 0
    ensures n / 256 / b == n / (256 * b)
  {
    var x := n / 256;
    var y := b * (x / b);
    assert x == y + x % b;
    assert (256 * b) * (x / b) == 256 * y;
    Quotient(n, 256 * b, x / b, 256 * (x % b) + n % 256);
  }

  lemma Quotient(n: nat, m: nat, q: nat, r: nat)
    requires m > 0 && r < m && n == m * q + r
    ensures n / m == q
  {
    var p := n / m;
    assert n == m * p + n % m;
    assert m * p - m * q == m * (p - q);
    Spread(m, p - q);
  }

  lemma Spread(m: nat, d: int)
    requires m > 0
    ensures d >= 1 ==> m * d >= m
    ensures d <= -1 ==> m * d + m <= 0
  {
    if d >= 1 {
      assert m * d == m * (d - 1) + m;
    } else if d <= -1 {
      assert m * d + m == m * (d + 1);
    }
  }

  /** Byte j of a number is its j-th digit to base 256: least significant first. */
  lemma {:induction false} Digits(n: nat, w: nat, j: nat)
    requires j < w
    ensures Pow256(j) > 0 && LittleEndian(n, w)[j] as nat == n / Pow256(j) % 256
    decreases j
  {
    if j > 0 {
      Digits(n / 256, w - 1, j - 1);
      DivTwice(n, Pow256(j - 1));
    }
  }

  /** Float i takes bytes 4 * i to 4 * i + 4, in memory order. */
  lemma {:induction false} FloatAt(v: Vec, i: nat)
    requires i < |v|
    ensures FloatBytes(v)[4 * i..4 * i + 4] == [v[i].b0, v[i].b1, v[i].b2, v[i].b3]
  {
    if i > 0 {
      FloatAt(v[1..], i - 1);
      assert FloatBytes(v)[4 * i..4 * i + 4] == FloatBytes(v[1..])[4 * (i - 1)..4 * (i - 1) + 4];
    }
  }

  /** A miss's count of -1 is four bytes of ones; a small count is its own first byte. */
  lemma CountBytes(h: nat)
    requires h < 256
    ensures I32(-1) == [255, 255, 255, 255] && I32(h) == [h as byte, 0, 0, 0]
  {
    Unfold4(TWO32 - 1);
    Unfold4(h);
  }

  lemma Unfold4(n: nat)
    ensures LittleEndian(n, 4) == [(n % 256) as byte, (n / 256 % 256) as byte,
                                   (n / 256 / 256 % 256) as byte, (n / 256 / 256 / 256 % 256) as byte]
  {
    assert LittleEndian(n / 256 / 256 / 256, 1) == [(n / 256 / 256 / 256 % 256) as byte];
    assert LittleEndian(n / 256 / 256, 2)
           == [(n / 256 / 256 % 256) as byte] + LittleEndian(n / 256 / 256 / 256, 1);
  }

  // ---------- requests ----------

  lemma Parts(line: Bytes, s: Bytes, dyn: Bytes)
    ensures var m, n := line + (s + [LF] + (dyn + CRLF)), |line|;
            && m[..n] == line
            && |m| == n + |s| + 1 + |dyn| + 2
            && m[n..n + |s|] == s
            && m[n + |s|] == LF
            && m[n + |s| + 1..|m| - 2] == dyn
            && m[|m| - 2..] == CRLF
  {
  }

  /** A field inside the fixed part stands at the same distance inside the message. */
  lemma Within(m: Bytes, n: nat, s: Bytes, from: nat, to: nat)
    requires n + |s| <= |m| && m[n..n + |s|] == s && from <= to <= |s|
    ensures m[n + from..n + to] == s[from..to]
  {
    forall i | 0 <= i < to - from
      ensures m[n + from..n + to][i] == s[from..to][i]
    {
      assert m[n..n + |s|][from + i] == m[n + from + i];
    }
  }

  lemma TwoFields(x: nat, y: nat)
    ensures (U64(x) + U64(y))[..8] == U64(x) && (U64(x) + U64(y))[8..16] == U64(y)
  {
  }

  lemma FiveFields(x: nat, y: nat, z: nat, b: bool, size: nat)
    ensures var s := U64(x) + (U64(y) + (U64(z) + (BoolByte(b) + U64(size))));
            && |s| == 33
            && s[..8] == U64(x) && s[8..16] == U64(y) && s[16..24] == U64(z)
            && s[24..25] == [if b then 1 else 0] && s[25..33] == U64(size)
  {
  }

  /** After the line: two numbers of 8 bytes, a line feed, the dynamic part, CRLF. */
  ghost predicate TwoLaidOut(m: Bytes, line: Bytes, x: nat, y: nat, dyn: Bytes) {
    var n := |line|;
    && |m| == n + 19 + |dyn| && m[..n] == line
    && m[n..n + 8] == U64(x) && m[n + 8..n + 16] == U64(y) && m[n + 16] == 10
    && m[n + 17..n + 17 + |dyn|] == dyn && m[n + 17 + |dyn|..] == [13, 10]
  }

  lemma TwoFrame(line: Bytes, x: nat, y: nat, dyn: Bytes)
    ensures TwoLaidOut(line + (U64(x) + U64(y) + [LF] + (dyn + CRLF)), line, x, y, dyn)
  {
    Parts(line, U64(x) + U64(y), dyn);
    TwoFields(x, y);
    TwoWithin(line + (U64(x) + U64(y) + [LF] + (dyn + CRLF)), |line|, U64(x) + U64(y));
  }

  /** After the line: three numbers, a flag of one byte, the size of the dynamic part, a line
      feed, the dynamic part, CRLF. */
  ghost predicate FiveLaidOut(m: Bytes, line: Bytes, x: nat, y: nat, z: nat, b: bool, dyn: Bytes) {
    var n := |line|;
    && |m| == n + 36 + |dyn| && m[..n] == line
    && m[n..n + 8] == U64(x) && m[n + 8..n + 16] == U64(y) && m[n + 16..n + 24] == U64(z)
    && m[n + 24..n + 25] == [if b then 1 else 0] && m[n + 25..n + 33] == U64(|dyn|) && m[n + 33] == 10
    && m[n + 34..n + 34 + |dyn|] == dyn && m[n + 34 + |dyn|..] == [13, 10]
  }

  lemma FiveFrame(line: Bytes, x: nat, y: nat, z: nat, b: bool, dyn: Bytes)
    ensures FiveLaidOut(line + (U64(x) + (U64(y) + (U64(z) + (BoolByte(b) + U64(|dyn|)))) + [LF] + (dyn + CRLF)),
                        line, x, y, z, b, dyn)
  {
    var s := U64(x) + (U64(y) + (U64(z) + (BoolByte(b) + U64(|dyn|))));
    Parts(line, s, dyn);
    FiveFields(x, y, z, b, |dyn|);
    FiveWithin(line + (s + [LF] + (dyn + CRLF)), |line|, s);
  }

  lemma FiveWithin(m: Bytes, n: nat, s: Bytes)
    requires |s| == 33 && n + 33 <= |m| && m[n..n + 33] == s
    ensures m[n..n + 8] == s[..8] && m[n + 8..n + 16] == s[8..16] && m[n + 16..n + 24] == s[16..24]
    ensures m[n + 24..n + 25] == s[24..25] && m[n + 25..n + 33] == s[25..33]
  {
    Within(m, n, s, 0, 8);
    Within(m, n, s, 8, 16);
    Within(m, n, s, 16, 24);
    Within(m, n, s, 24, 25);
    Within(m, n, s, 25, 33);
  }

  lemma TwoWithin(m: Bytes, n: nat, s: Bytes)
    requires |s| == 16 && n + 16 <= |m| && m[n..n + 16] == s
    ensures m[n..n + 8] == s[..8] && m[n + 8..n + 16] == s[8..16]
  {
    Within(m, n, s, 0, 8);
    Within(m, n, s, 8, 16);
  }

  lemma TwoOf(a: Args, x: nat, y: nat)
    requires StaticBytes(HeaderOf(a)) == U64(x) + U64(y)
    ensures TwoLaidOut(Frame(a), WordOf(CommandOf(a)) + CRLF, x, y, DynamicBytes(a))
  {
    TwoFrame(WordOf(CommandOf(a)) + CRLF, x, y, DynamicBytes(a));
  }

  lemma FiveOf(a: Args, x: nat, y: nat, z: nat, b: bool)
    requires StaticBytes(HeaderOf(a)) == U64(x) + (U64(y) + (U64(z) + (BoolByte(b) + U64(|DynamicBytes(a)|))))
    ensures FiveLaidOut(Frame(a), WordOf(CommandOf(a)) + CRLF, x, y, z, b, DynamicBytes(a))
  {
    FiveFrame(WordOf(CommandOf(a)) + CRLF, x, y, z, b, DynamicBytes(a));
  }

  /** INITIALIZE: d, max_mem, n_total, use_flat, the url's length, the url. */
  lemma InitializeLayout(a: Args)
    requires a.InitializeArgs?
    ensures FiveLaidOut(Frame(a), WordOf(INITIALIZE) + CRLF, a.d, a.maxMem, a.nTotal, a.useFlat, a.dbUrl)
  {
    FiveOf(a, a.d, a.maxMem, a.nTotal, a.useFlat);
  }

  /** SEARCH: n, k, nprobe, require_all, the floats' bytes counted, the floats. */
  lemma SearchLayout(a: Args)
    requires a.SearchArgs?
    ensures FiveLaidOut(Frame(a), WordOf(SEARCH) + CRLF, a.n, a.k, a.nprobe, a.requireAll, FloatBytes(a.xq))
  {
    FiveOf(a, a.n, a.k, a.nprobe, a.requireAll);
  }

  /** TRAIN: the floats' bytes counted, the floats. */
  lemma TrainLayout(data: Vec)
    ensures var m := Frame(TrainArgs(data));
            && |m| == 18 + 4 * |data|
            && m[..7] == WordOf(TRAIN) + [13, 10]
            && m[7..15] == U64(4 * |data|) && m[15] == 10
            && m[16..16 + 4 * |data|] == FloatBytes(data) && m[16 + 4 * |data|..] == [13, 10]
  {
    assert |WordOf(TRAIN)| == 5;
    Parts(WordOf(TRAIN) + CRLF, U64(4 * |data|), FloatBytes(data));
  }

  /** LOAD: nload, the floats' bytes counted, the floats. */
  lemma LoadLayout(a: Args)
    requires a.LoadArgs?
    ensures DynamicSize(a) == 4 * |a.xq|
    ensures TwoLaidOut(Frame(a), WordOf(LOAD) + CRLF, a.nload, DynamicSize(a), FloatBytes(a.xq))
  {
    TwoOf(a, a.nload, DynamicSize(a));
  }

  /** EVICT: nevict, the floats' bytes counted, the floats. */
  lemma EvictLayout(a: Args)
    requires a.EvictArgs?
    ensures DynamicSize(a) == 4 * |a.xq|
    ensures TwoLaidOut(Frame(a), WordOf(EVICT) + CRLF, a.nevict, DynamicSize(a), FloatBytes(a.xq))
  {
    TwoOf(a, a.nevict, DynamicSize(a));
  }

  /** ADD: the number of ids, the size of all that follows; then the ids, a line feed, the floats. */
  lemma AddLayout(a: Args)
    requires a.AddArgs?
    ensures DynamicSize(a) == IdTotal(a.ids) + 1 + 4 * |a.embeddings|
    ensures TwoLaidOut(Frame(a), WordOf(ADD) + CRLF, |a.ids|, DynamicSize(a),
                       IdBytes(a.ids) + [LF] + FloatBytes(a.embeddings))
  {
    TwoOf(a, |a.ids|, DynamicSize(a));
  }

  /** Id i of an ADD stands behind its length, after the ids before it and their lengths. */
  lemma {:induction false} IdAt(ids: seq<Bytes>, i: nat)
    requires i < |ids|
    ensures var o := IdTotal(ids[..i]);
            && o + 8 + |ids[i]| <= |IdBytes(ids)|
            && IdBytes(ids)[o..o + 8] == U64(|ids[i]|)
            && IdBytes(ids)[o + 8..o + 8 + |ids[i]|] == ids[i]
    decreases i
  {
    var head := U64(|ids[0]|) + ids[0];
    if i == 0 {
      assert IdTotal(ids[..0]) == 0;
      FirstId(ids[0], IdBytes(ids[1..]));
    } else {
      IdAt(ids[1..], i - 1);
      assert ids[..i][1..] == ids[1..][..i - 1] && ids[1..][i - 1] == ids[i];
      LaterId(head, IdBytes(ids[1..]), IdTotal(ids[1..][..i - 1]), ids[i]);
    }
  }

  lemma FirstId(id: Bytes, rest: Bytes)
    ensures var b := U64(|id|) + id + rest; b[..8] == U64(|id|) && b[8..8 + |id|] == id
  {
  }

  lemma LaterId(head: Bytes, rest: Bytes, o: nat, id: Bytes)
    requires o + 8 + |id| <= |rest| && rest[o..o + 8] == U64(|id|) && rest[o + 8..o + 8 + |id|] == id
    ensures var b, p := head + rest, |head| + o; b[p..p + 8] == U64(|id|) && b[p + 8..p + 8 + |id|] == id
  {
    Shifted(head, rest, o, 8);
    Shifted(head, rest, o + 8, |id|);
  }

  lemma Shifted(head: Bytes, rest: Bytes, o: nat, len: nat)
    requires o + len <= |rest|
    ensures (head + rest)[|head| + o..|head| + o + len] == rest[o..o + len]
  {
  }

  // ---------- replies ----------

  /** A record: id, embedding, document, metadata, each behind its length. */
  lemma RecordLayout(r: Record)
    ensures var b, e := EncodeRecord(r), 16 + |r.id|;
            var d := e + 4 * |r.embedding|;
            var m := d + 8 + |r.document|;
            && |b| == m + 8 + |r.metadata|
            && b[..8] == U64(|r.id|) && b[8..8 + |r.id|] == r.id
            && b[8 + |r.id|..e] == U64(|r.embedding|) && b[e..d] == FloatBytes(r.embedding)
            && b[d..d + 8] == U64(|r.document|) && b[d + 8..m] == r.document
            && b[m..m + 8] == U64(|r.metadata|) && b[m + 8..] == r.metadata
  {
    EightParts(U64(|r.id|), r.id, U64(|r.embedding|), FloatBytes(r.embedding),
               U64(|r.document|), r.document, U64(|r.metadata|), r.metadata);
  }

  lemma EightParts(a: Bytes, b: Bytes, c: Bytes, d: Bytes, e: Bytes, f: Bytes, g: Bytes, h: Bytes)
    ensures var x := (a + b) + (c + d) + (e + f) + (g + h);
            var p1 := |a| + |b|;
            var p2 := p1 + |c| + |d|;
            var p3 := p2 + |e| + |f|;
            && x[..|a|] == a && x[|a|..p1] == b && x[p1..p1 + |c|] == c && x[p1 + |c|..p2] == d
            && x[p2..p2 + |e|] == e && x[p2 + |e|..p3] == f && x[p3..p3 + |g|] == g && x[p3 + |g|..] == h
  {
  }

  /** Records follow one another in order. */
  lemma {:induction false} RecordsInOrder(a: seq<Record>, r: Record, b: seq<Record>)
    ensures EncodeRecords(a + [r] + b) == EncodeRecords(a) + EncodeRecord(r) + EncodeRecords(b)
    decreases |a|
  {
    if a == [] {
      assert a + [r] + b == [r] + b && ([r] + b)[1..] == b;
    } else {
      RecordsInOrder(a[1..], r, b);
      assert (a + [r] + b)[1..] == a[1..] + [r] + b;
      Assoc(EncodeRecord(a[0]), EncodeRecords(a[1..]), EncodeRecord(r));
      Assoc(EncodeRecord(a[0]), EncodeRecords(a[1..]) + EncodeRecord(r), EncodeRecords(b));
    }
  }

  /** An answer: its count, then its records. */
  lemma AnswerLayout(h: int, rs: seq<Record>)
    requires FitsInt(h)
    ensures EncodeAnswer(h, rs)[..4] == I32(h) && EncodeAnswer(h, rs)[4..] == EncodeRecords(rs)
  {
  }

  /** Answers follow one another in the order of the queries: those to the first m queries come
      first, then the answer to query m. */
  lemma {:induction false} AnswersInOrder(cacheHits: seq<int>, slots: seq<Record>, k: nat, from: nat, m: nat)
    requires from <= m < |cacheHits| && forall h | h in cacheHits :: FitsInt(h)
    ensures EncodeFrom(cacheHits, slots, k, from)
            == EncodeFrom(cacheHits[..m], slots, k, from) + EncodeFrom(cacheHits, slots, k, m)
    ensures EncodeFrom(cacheHits, slots, k, m)
            == EncodeAnswer(cacheHits[m], Reported(slots, k, m, cacheHits[m])) + EncodeFrom(cacheHits, slots, k, m + 1)
    decreases m - from
  {
    var rest := EncodeFrom(cacheHits, slots, k, m);
    OneMoreAnswer(cacheHits, slots, k, from);
    if from < m {
      AnswersInOrder(cacheHits, slots, k, from + 1, m);
      OneMoreAnswer(cacheHits[..m], slots, k, from);
      Assoc(EncodeAnswer(cacheHits[from], Reported(slots, k, from, cacheHits[from])),
            EncodeFrom(cacheHits[..m], slots, k, from + 1), rest);
    } else {
      assert EncodeFrom(cacheHits[..m], slots, k, from) == [];
      assert [] + rest == rest;
    }
  }

  lemma OneMoreAnswer(cacheHits: seq<int>, slots: seq<Record>, k: nat, from: nat)
    requires from < |cacheHits| && forall h | h in cacheHits :: FitsInt(h)
    ensures EncodeFrom(cacheHits, slots, k, from)
            == EncodeAnswer(cacheHits[from], Reported(slots, k, from, cacheHits[from]))
               + EncodeFrom(cacheHits, slots, k, from + 1)
  {
  }

  /** The answer read for query i: none on a miss, else slots i * k up to its count. */
  lemma {:induction false} ReportedAt(cacheHits: seq<int>, slots: seq<Record>, k: nat, from: nat, i: nat)
    requires from <= i < |cacheHits| && |slots| == |cacheHits| * k && cacheHits[i] <= k
    ensures i * k >= 0 && i * k + k <= |slots|
    ensures ReportedFrom(cacheHits, slots, k, from)[i - from]
            == if cacheHits[i] <= 0 then [] else slots[i * k..i * k + cacheHits[i]]
    decreases i - from
  {
    Times(i, 1, k);
    Times(i + 1, |cacheHits| - (i + 1), k);
    if from < i {
      ReportedAt(cacheHits, slots, k, from + 1, i);
    } else {
      StartIs(i, k);
    }
  }
}

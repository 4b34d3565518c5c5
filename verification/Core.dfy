/** The cache core in the source's own form: fields updated in place, loops over ids, cells
    and queries. Every method is tied to the state functions of CoreState.dfy. FAISS's
    quantizer and index are the fields quantizer, isTrained, indexNprobe and invlists. */
module CoreClass {
  import opened Bytes
  import opened Ranking
  import opened CoreState
  import opened CoreInvariants
  import opened CoreAdds
  import opened CoreSearch

  class Core {
    const d: nat
    const nCells: nat
    const coarse: (Vec, Vec) -> int
    const fine: (Vec, Vec) -> int

    var quantizer: seq<Vec>
    var centroids: seq<Vec>
    var isTrained: bool
    var indexNprobe: nat
    var invlists: seq<seq<Entry>>

    const residence: array<int>
    var nextId: nat
    var idsByCell: seq<seq<Bytes>>
    var dataMap: map<nat, Record>
    var idMap: map<Bytes, nat>

    function Abs(): State
      reads this, residence
    {
      State(d, nCells, Geometry(quantizer, coarse, fine), isTrained, idsByCell, idMap, dataMap, invlists,
            residence[..], nextId)
    }

    ghost predicate Valid()
      reads this, residence
    {
      WellFormed(Abs())
    }

    constructor (d: nat, nCells: nat, coarse: (Vec, Vec) -> int, fine: (Vec, Vec) -> int)
      ensures Valid() && fresh(residence)
      ensures Abs() == Blank(d, nCells, coarse, fine)
      ensures this.d == d && this.nCells == nCells && this.coarse == coarse && this.fine == fine
    {
      this.d, this.nCells, this.coarse, this.fine := d, nCells, coarse, fine;
      quantizer, centroids, isTrained, indexNprobe := [], [], false, 1;
      invlists := Copies(nCells, []);
      residence := new int[nCells];
      nextId, idsByCell, dataMap, idMap := 0, [], map[], map[];
      new;
      for i := 0 to nCells
        invariant idsByCell == Copies(i, [])
        invariant residence[..i] == Copies(i, -1)
        invariant fresh(residence) && nextId == 0 && dataMap == map[] && idMap == map[] && !isTrained
        invariant quantizer == [] && invlists == Copies(nCells, [])
      {
        residence[i] := -1;
        idsByCell := idsByCell + [[]];
      }
      assert residence[..] == residence[..nCells];
    }

    /** learned is what k-means makes of the training vectors. */
    method Train(learned: seq<Vec>)
      requires Valid() && |learned| == nCells
      modifies this
      ensures Valid() && Abs() == CoreState.Train(old(Abs()), learned)
      ensures centroids == quantizer
    {
      if !isTrained {
        quantizer := learned;
        isTrained := true;
      }
      centroids := quantizer;
    }

    /** Scans the first maxLength characters of a buffer for a NUL. */
    static method IsNullTerminated(str: Bytes, maxLength: nat) returns (found: bool)
      requires 0 in str || maxLength <= |str|
      ensures found <==> |CStr(str)| < maxLength
    {
      var i := 0;
      while i < maxLength
        invariant 0 <= i <= maxLength && i <= |CStr(str)|
      {
        NulAt(str, i);
        if str[i] == 0 {
          return true;
        }
        i := i + 1;
      }
      return false;
    }

    /** A character not past the first NUL is in the buffer, and is the NUL only at the end. */
    static lemma {:induction false} NulAt(str: Bytes, i: nat)
      requires i <= |CStr(str)| && (0 in str || i < |str|)
      ensures i < |str| && (str[i] == 0 <==> i == |CStr(str)|)
    {
      if |CStr(str)| == |str| {
        assert CStr(str) == str;
      } else if i < |CStr(str)| {
        assert CStr(str)[i] == str[i];
      }
    }

    static lemma {:induction false} CStrOfBuffer(id: Bytes)
      ensures CStr(id + [0]) == CStr(id)
    {
      if id != [] && id[0] != 0 {
        assert (id + [0])[1..] == id[1..] + [0];
        CStrOfBuffer(id[1..]);
      } else if id == [] {
        assert id + [0] == [0];
      }
    }

    /** The assert at the head of add's loop, on the buffer that holds the id and its NUL. */
    static method CheckId(id: Bytes) returns (ok: bool)
      ensures ok == Terminated(id)
      ensures ok <==> |CStr(id)| < 100
    {
      CStrOfBuffer(id);
      ok := IsNullTerminated(id + [0], ID_SCAN);
    }

    method Add(numDocs: nat, ids: seq<Bytes>, embeddings: Vec) returns (ending: Ending)
      requires Valid() && isTrained && nCells > 0 && numDocs <= |ids| && numDocs * d <= |embeddings|
      modifies this
      ensures Valid()
      ensures ending == if forall i | 0 <= i < numDocs :: Terminated(ids[i]) then Done else Aborted
      ensures ending == Done ==> Abs() == AddRows(old(Abs()), ids[..numDocs], RowsOf(embeddings, d, numDocs))
      ensures ending == Done ==> forall i: nat | i < numDocs :: RegisteredAt(old(Abs()), Abs(), ids, embeddings, i)
    {
      var rows := RowsOf(embeddings, d, numDocs);
      var updated := NearestOf(Abs().geo, rows);
      var taken := ids[..numDocs];
      AddedRowsRegister(Abs(), ids, embeddings, numDocs);
      ending := RegisterAll(taken, updated, rows);
      assert forall i | 0 <= i < numDocs :: taken[i] == ids[i];
    }

    /** The loop of add, after the one quantizer search for all rows. */
    method RegisterAll(ids: seq<Bytes>, updated: seq<nat>, ghost vs: seq<Vec>) returns (ending: Ending)
      requires Valid() && isTrained && nCells > 0 && |ids| == |updated| == |vs|
      requires forall i | 0 <= i < |vs| :: updated[i] == Nearest(Abs().geo, vs[i])
      modifies this
      ensures Valid()
      ensures ending == if forall i | 0 <= i < |ids| :: Terminated(ids[i]) then Done else Aborted
      ensures ending == Done ==> Abs() == AddRows(old(Abs()), ids, vs)
    {
      ghost var before := Abs();
      for i := 0 to |ids|
        invariant Valid() && Abs().trained && Abs().geo == before.geo
        invariant AddRows(before, ids, vs) == AddRows(Abs(), ids[i..], vs[i..])
        invariant forall j | 0 <= j < i :: Terminated(ids[j])
      {
        var ok := CheckId(ids[i]);
        if !ok {
          return Aborted;
        }
        NearestInRange(before.geo, vs[i]);
        assert ids[i..][0] == ids[i] && ids[i..][1..] == ids[i + 1..];
        assert vs[i..][0] == vs[i] && vs[i..][1..] == vs[i + 1..];
        Register(ids[i], updated[i], vs[i]);
      }
      return Done;
    }

    /** The body of add's loop: the id joins its cell whether or not it is known already. */
    method Register(id: Bytes, cell: nat, ghost v: Vec)
      requires Valid() && cell == Nearest(Abs().geo, v) && cell < nCells
      modifies this
      ensures Valid() && Abs() == AddOne(old(Abs()), id, v)
    {
      var key := CStr(id);
      idsByCell := idsByCell[cell := idsByCell[cell] + [key]];
      if key !in idMap {
        idMap := idMap[key := nextId];
      }
      nextId := nextId + 1;
    }

    method LoadCellWithVec(xq: Vec, nload: nat, db: nat -> DbReply) returns (ending: Ending)
      requires Valid() && isTrained && nload <= nCells
      requires forall c: nat | c < nCells && db(c).Rows? :: |db(c).rows| <= |idsByCell[c]|
      modifies this, residence
      ensures Valid() && CellsOf(old(Abs()), Probe(old(Abs()).geo, xq, nload))
      ensures ending == LoadCells(old(Abs()), Probe(old(Abs()).geo, xq, nload), db).ending
      ensures ending != Aborted ==> Abs() == LoadCells(old(Abs()), Probe(old(Abs()).geo, xq, nload), db).state
    {
      var cells := Probe(Abs().geo, xq, nload);
      ProbeInRange(Abs().geo, xq, nload);
      ghost var before := Abs();
      for i := 0 to nload
        invariant Valid() && isTrained && idsByCell == before.idsByCell
        invariant CellsOf(Abs(), cells[i..])
        invariant LoadCells(before, cells, db) == LoadCells(Abs(), cells[i..], db)
      {
        assert cells[i..][0] == cells[i] && cells[i..][1..] == cells[i + 1..];
        if residence[cells[i]] > -1 {
          continue;
        }
        var e := LoadCell(cells[i], db(cells[i]));
        if e != Done {
          return e;
        }
      }
      return Done;
    }

    method LoadCell(target: nat, reply: DbReply) returns (ending: Ending)
      requires Valid() && isTrained && target < nCells
      requires reply.Rows? ==> |reply.rows| <= |idsByCell[target]|
      modifies this, residence
      ensures Valid() && isTrained && idsByCell == old(idsByCell)
      ensures ending == match reply
                        case Refused => DbFailed
                        case Rows(rows) => if Loadable(old(Abs()), target, rows) then Done else Aborted
      ensures ending == DbFailed ==> Abs() == old(Abs())
      ensures ending == Done ==> Abs() == CoreState.LoadCell(old(Abs()), target, reply.rows)
    {
      if reply.Refused? {
        return DbFailed;
      }
      var x := reply.rows;
      ghost var s := Abs();
      var geo := Abs().geo;
      AbsorbNone(s, target, x[..0]);
      for i := 0 to |idsByCell[target]|
        invariant i <= |x|
        invariant Valid() && isTrained && Abs().geo == geo
        invariant Absorbed(s, target, x[..i], Abs())
      {
        if i == |x| {
          return Aborted;
        }
        var ok := LoadRecord(target, x[i], s, x, i);
        if !ok {
          return Aborted;
        }
      }
      assert x[..|x|] == x;
      residence[target] := |idsByCell[target]|;
      return Done;
    }

    /** The body of loadCell's loop for record i of the reply; false when an assert fails. */
    method LoadRecord(target: nat, r: Record, ghost s: State, ghost x: seq<Record>, ghost i: nat) returns (ok: bool)
      requires Valid() && isTrained && target < nCells && i < |x| && r == x[i]
      requires WellFormed(s) && s.nCells == nCells && s.geo == Abs().geo && s.idMap == idMap
      requires Absorbed(s, target, x[..i], Abs())
      modifies `dataMap, `invlists
      ensures Valid()
      ensures ok ==> Absorbed(s, target, x[..i + 1], Abs())
      ensures !ok ==> !Loadable(s, target, x)
    {
      ghost var t := Abs();
      var cell := Nearest(Abs().geo, r.embedding);
      if cell == target {
        var key := CStr(r.id);
        if key !in idMap {
          AbsorbUnknown(s, target, x, i);
          return false;
        }
        var idNum := idMap[key];
        if idNum in dataMap {
          AbsorbTwice(s, target, x, i, t);
          return false;
        }
        AbsorbOne(s, target, x, i, t);
        Insert(cell, idNum, r);
      } else {
        AbsorbSkip(s, target, x, i, t);
      }
      return true;
    }

    /** data_map.insert and index->add_with_ids for one record. */
    method Insert(cell: nat, idNum: nat, r: Record)
      requires Valid() && cell < nCells
      modifies `dataMap, `invlists
      ensures Valid()
      ensures Abs() == old(Abs()).(dataMap := old(dataMap)[idNum := r],
                                   lists := old(invlists)[cell := old(invlists)[cell] + [Entry(idNum, r.embedding)]])
    {
      dataMap := dataMap[idNum := r];
      invlists := invlists[cell := invlists[cell] + [Entry(idNum, r.embedding)]];
    }

    method EvictCellWithVec(xq: Vec, nevict: nat)
      requires Valid() && isTrained && nevict <= nCells
      modifies this, residence
      ensures Valid() && CellsOf(old(Abs()), Probe(old(Abs()).geo, xq, nevict))
      ensures Abs() == EvictCells(old(Abs()), Probe(old(Abs()).geo, xq, nevict))
    {
      var cells := Probe(Abs().geo, xq, nevict);
      ProbeInRange(Abs().geo, xq, nevict);
      ghost var before := Abs();
      for i := 0 to nevict
        invariant Valid() && isTrained
        invariant CellsOf(Abs(), cells[i..])
        invariant EvictCells(before, cells) == EvictCells(Abs(), cells[i..])
      {
        assert cells[i..][0] == cells[i] && cells[i..][1..] == cells[i + 1..];
        if residence[cells[i]] < 0 {
          continue;
        }
        var threw := EvictCell(cells[i]);
        assert !threw;
      }
    }

    /** threw: the cell was not in residence. */
    method EvictCell(c: nat) returns (threw: bool)
      requires Valid() && c < nCells
      modifies this, residence
      ensures Valid() && threw == (old(residence[c]) == -1)
      ensures Abs() == if threw then old(Abs()) else CoreState.EvictCell(old(Abs()), c)
      ensures isTrained == old(isTrained)
    {
      if residence[c] == -1 {
        return true;
      }
      var idsToRemove := invlists[c];
      invlists := invlists[c := []];
      for i := 0 to |idsToRemove|
        invariant Valid() && residence[..] == old(residence[..])
        invariant Abs() == old(Abs()).(lists := old(invlists)[c := []], dataMap := dataMap)
        invariant dataMap == old(dataMap) - StoredNums(idsToRemove[..i])
      {
        assert StoredNums(idsToRemove[..i + 1]) == StoredNums(idsToRemove[..i]) + {idsToRemove[i].num};
        dataMap := dataMap - {idsToRemove[i].num};
      }
      assert idsToRemove[..|idsToRemove|] == idsToRemove;
      residence[c] := -1;
      return false;
    }

    /** What a call leaves in the k slots from lo on, and in the hit count, for a query routed by
        q and searched with w: on a hit the records of the k best labels followed by empty
        records, on a miss -1 and the slots as before. */
    static ghost predicate Answered(s: State, q: Vec, w: Vec, lo: nat, k: nat, nprobe: nat, requireAll: bool,
                                    slots: seq<Record>, count: int, before: seq<Record>)
      requires WellFormed(s) && s.trained && 1 <= nprobe <= s.nCells
    {
      && lo + k <= |slots| == |before|
      && var mine := slots[lo..lo + k];
      if IsHit(s, q, nprobe, requireAll) then
        count == |Scan(s, w, k, nprobe)| && SlotsHold(s, Scan(s, w, k, nprobe), mine)
      else
        count == -1 && mine == before[lo..lo + k]
    }

    /** On a hit the slots up to the count are the k best stored records in reach of the slice. */
    static lemma SlotsAreNearestStored(s: State, q: Vec, w: Vec, lo: nat, k: nat, nprobe: nat, requireAll: bool,
                                       slots: seq<Record>, count: int, before: seq<Record>)
      requires Coherent(s) && s.trained && 1 <= nprobe <= s.nCells && IsHit(s, q, nprobe, requireAll)
      requires Answered(s, q, w, lo, k, nprobe, requireAll, slots, count, before)
      ensures 0 <= count <= k && lo + k <= |slots|
      ensures NearestStored(s, w, k, nprobe, slots[lo..lo + count])
      ensures Query(s, q, w, k, nprobe, requireAll) == Found(slots[lo..lo + count])
    {
      SlotsAreRecords(s, q, w, lo, k, nprobe, requireAll, slots, count, before);
      HitReturnsNearestStored(s, q, w, k, nprobe, requireAll);
    }

    static lemma SlotsAreRecords(s: State, q: Vec, w: Vec, lo: nat, k: nat, nprobe: nat, requireAll: bool,
                                 slots: seq<Record>, count: int, before: seq<Record>)
      requires Coherent(s) && s.trained && 1 <= nprobe <= s.nCells && IsHit(s, q, nprobe, requireAll)
      requires Answered(s, q, w, lo, k, nprobe, requireAll, slots, count, before)
      ensures 0 <= count <= k && lo + k <= |slots|
      ensures Query(s, q, w, k, nprobe, requireAll) == Found(slots[lo..lo + count])
    {
      HitReturnsNearestStored(s, q, w, k, nprobe, requireAll);
      AnsweredHolds(s, q, w, lo, k, nprobe, requireAll, slots, count, before);
      RecordsOfSlots(s, Scan(s, w, k, nprobe), slots, lo, k, Query(s, q, w, k, nprobe, requireAll).records);
    }

    static lemma AnsweredHolds(s: State, q: Vec, w: Vec, lo: nat, k: nat, nprobe: nat, requireAll: bool,
                               slots: seq<Record>, count: int, before: seq<Record>)
      requires WellFormed(s) && s.trained && 1 <= nprobe <= s.nCells && IsHit(s, q, nprobe, requireAll)
      requires Answered(s, q, w, lo, k, nprobe, requireAll, slots, count, before)
      ensures lo + k <= |slots| && count == |Scan(s, w, k, nprobe)| <= k
      ensures SlotsHold(s, Scan(s, w, k, nprobe), slots[lo..lo + k])
    {
    }

    static lemma RecordsOfSlots(s: State, hits: seq<Hit>, slots: seq<Record>, lo: nat, k: nat, rs: seq<Record>)
      requires lo + k <= |slots| && SlotsHold(s, hits, slots[lo..lo + k]) && |rs| == |hits|
      requires forall j | 0 <= j < |hits| :: hits[j].num in s.dataMap && rs[j] == s.dataMap[hits[j].num]
      ensures |hits| <= k && slots[lo..lo + |hits|] == rs
    {
      var mine := slots[lo..lo + k];
      assert forall j | 0 <= j < |hits| :: slots[lo..lo + |hits|][j] == mine[j] == rs[j];
    }

    /** An answer depends on its own slots only, and on them as they were when it was asked. */
    static lemma AnsweredElsewhere(s: State, q: Vec, w: Vec, lo: nat, k: nat, nprobe: nat, requireAll: bool,
                                   slots: seq<Record>, count: int, before: seq<Record>,
                                   later: seq<Record>, earlier: seq<Record>)
      requires WellFormed(s) && s.trained && 1 <= nprobe <= s.nCells
      requires Answered(s, q, w, lo, k, nprobe, requireAll, slots, count, before)
      requires |later| == |slots| == |earlier|
      requires later[lo..lo + k] == slots[lo..lo + k] && earlier[lo..lo + k] == before[lo..lo + k]
      ensures Answered(s, q, w, lo, k, nprobe, requireAll, later, count, earlier)
    {
    }

    method Search(n: nat, xq: Vec, k: nat, nprobe: nat, requireAll: bool, data: array<Record>, cacheHits: array<int>)
      returns (ending: Ending)
      requires Valid() && isTrained && 1 <= nprobe <= nCells && d >= 1 && n * d <= |xq|
      requires data.Length == n * k && cacheHits.Length == n && cacheHits != residence
      modifies `indexNprobe, data, cacheHits
      ensures Abs() == old(Abs())
      ensures indexNprobe == nprobe
      ensures ending == Done || ending == Aborted
      ensures ending == Done ==>
        AnsweredUpTo(old(Abs()), xq, n, k, nprobe, requireAll, data[..], cacheHits[..], old(data[..]))
      ensures ending == Aborted ==> !Coherent(old(Abs()))
    {
      indexNprobe := nprobe;
      ghost var s := Abs();
      ghost var was := data[..];
      for i := 0 to n
        invariant Abs() == s && i * k <= data.Length && indexNprobe == nprobe
        invariant AnsweredUpTo(s, xq, i, k, nprobe, requireAll, data[..], cacheHits[..], was)
        invariant data[i * k..] == was[i * k..]
      {
        RowFits(xq, d, i, n);
        WindowFits(xq, d, i, n);
        RowFits(was, k, i, n);
        ghost var prev := data[..];
        ghost var counts := cacheHits[..];
        var ok := SearchOne(i, i * k, Row(xq, d, i), Window(xq, d, i), k, nprobe, requireAll, data, cacheHits);
        if !ok {
          return Aborted;
        }
        NewAnswerStands(s, Row(xq, d, i), Window(xq, d, i), i * k, k, nprobe, requireAll,
                        data[..], cacheHits[i], prev, was);
        AnswersExtend(s, xq, i, k, nprobe, requireAll, prev, counts, data[..], cacheHits[..], was);
        assert data[i * k + k..] == prev[i * k..][k..];
      }
      return Done;
    }

    /** Query i of a call, as the source slices its arrays: routed by row i, searched from
        offset i, answered in slots i * k onwards. */
    static ghost predicate AnsweredAt(s: State, xq: Vec, i: nat, k: nat, nprobe: nat, requireAll: bool,
                                      slots: seq<Record>, count: int, before: seq<Record>)
      requires WellFormed(s) && s.trained && 1 <= nprobe <= s.nCells
    {
      Answered(s, Row(xq, s.d, i), Window(xq, s.d, i), i * k, k, nprobe, requireAll, slots, count, before)
    }

    /** Query i of a call, in the floats and slots it is about: residency is decided by floats
        i * d to i * d + d, the index is searched for floats i to i + d, the answer is in slots
        i * k to i * k + k. */
    static lemma AnswerSpelled(s: State, xq: Vec, n: nat, i: nat, k: nat, nprobe: nat, requireAll: bool,
                               slots: seq<Record>, counts: seq<int>, before: seq<Record>)
      requires Coherent(s) && s.trained && 1 <= nprobe <= s.nCells && s.d >= 1 && n * s.d <= |xq|
      requires i < n == |counts| && |slots| == |before| == n * k
      requires AnsweredUpTo(s, xq, n, k, nprobe, requireAll, slots, counts, before)
      ensures i * s.d >= 0 && i * s.d + s.d <= |xq| && i + s.d <= |xq| && i * k >= 0 && i * k + k <= |slots|
      ensures var q, w := xq[i * s.d..i * s.d + s.d], xq[i..i + s.d];
              if IsHit(s, q, nprobe, requireAll) then
                && 0 <= counts[i] <= k
                && NearestStored(s, w, k, nprobe, slots[i * k..i * k + counts[i]])
                && Query(s, q, w, k, nprobe, requireAll) == Found(slots[i * k..i * k + counts[i]])
              else
                counts[i] == -1 && slots[i * k..i * k + k] == before[i * k..i * k + k]
    {
      SlicesOfQuery(xq, s.d, i, n);
      RowFits(slots, k, i, n);
      assert AnsweredAt(s, xq, i, k, nprobe, requireAll, slots, counts[i], before);
      AnswerOf(s, xq, i, xq[i * s.d..i * s.d + s.d], xq[i..i + s.d], k, nprobe, requireAll, slots, counts[i], before);
    }

    static lemma AnswerOf(s: State, xq: Vec, i: nat, q: Vec, w: Vec, k: nat, nprobe: nat, requireAll: bool,
                          slots: seq<Record>, count: int, before: seq<Record>)
      requires Coherent(s) && s.trained && 1 <= nprobe <= s.nCells && i * k >= 0
      requires q == Row(xq, s.d, i) && w == Window(xq, s.d, i)
      requires AnsweredAt(s, xq, i, k, nprobe, requireAll, slots, count, before)
      ensures i * k + k <= |slots| == |before|
      ensures if IsHit(s, q, nprobe, requireAll) then
                && 0 <= count <= k
                && NearestStored(s, w, k, nprobe, slots[i * k..i * k + count])
                && Query(s, q, w, k, nprobe, requireAll) == Found(slots[i * k..i * k + count])
              else
                count == -1 && slots[i * k..i * k + k] == before[i * k..i * k + k]
    {
      AnswerIs(s, q, w, i * k, k, nprobe, requireAll, slots, count, before);
    }

    static lemma AnswerIs(s: State, q: Vec, w: Vec, lo: nat, k: nat, nprobe: nat, requireAll: bool,
                          slots: seq<Record>, count: int, before: seq<Record>)
      requires Coherent(s) && s.trained && 1 <= nprobe <= s.nCells
      requires Answered(s, q, w, lo, k, nprobe, requireAll, slots, count, before)
      ensures lo + k <= |slots| == |before|
      ensures if IsHit(s, q, nprobe, requireAll) then
                && 0 <= count <= k
                && NearestStored(s, w, k, nprobe, slots[lo..lo + count])
                && Query(s, q, w, k, nprobe, requireAll) == Found(slots[lo..lo + count])
              else
                count == -1 && slots[lo..lo + k] == before[lo..lo + k]
    {
      if IsHit(s, q, nprobe, requireAll) {
        SlotsAreNearestStored(s, q, w, lo, k, nprobe, requireAll, slots, count, before);
      }
    }

    static ghost predicate AnsweredUpTo(s: State, xq: Vec, n: nat, k: nat, nprobe: nat, requireAll: bool,
                                        slots: seq<Record>, counts: seq<int>, before: seq<Record>)
      requires WellFormed(s) && s.trained && 1 <= nprobe <= s.nCells && n <= |counts|
    {
      forall i: nat | i < n :: AnsweredAt(s, xq, i, k, nprobe, requireAll, slots, counts[i], before)
    }

    static lemma AnswersExtend(s: State, xq: Vec, i: nat, k: nat, nprobe: nat, requireAll: bool,
                               prev: seq<Record>, counts: seq<int>,
                               now: seq<Record>, countsNow: seq<int>, was: seq<Record>)
      requires WellFormed(s) && s.trained && 1 <= nprobe <= s.nCells && i < |counts| == |countsNow|
      requires AnsweredUpTo(s, xq, i, k, nprobe, requireAll, prev, counts, was)
      requires AnsweredAt(s, xq, i, k, nprobe, requireAll, now, countsNow[i], was)
      requires |prev| == |now| == |was| && i * k <= |prev| && now[..i * k] == prev[..i * k]
      requires forall p | 0 <= p < i :: countsNow[p] == counts[p]
      ensures AnsweredUpTo(s, xq, i + 1, k, nprobe, requireAll, now, countsNow, was)
    {
      forall p: nat | p < i
        ensures AnsweredAt(s, xq, p, k, nprobe, requireAll, now, countsNow[p], was)
      {
        assert AnsweredAt(s, xq, p, k, nprobe, requireAll, prev, counts[p], was);
        SlotsBelow(k, p, i);
        AnsweredBefore(s, xq, p, i * k, k, nprobe, requireAll, prev, counts[p], was, now);
      }
    }

    static lemma AnsweredBefore(s: State, xq: Vec, p: nat, hi: nat, k: nat, nprobe: nat, requireAll: bool,
                                prev: seq<Record>, count: int, was: seq<Record>, now: seq<Record>)
      requires WellFormed(s) && s.trained && 1 <= nprobe <= s.nCells
      requires AnsweredAt(s, xq, p, k, nprobe, requireAll, prev, count, was)
      requires |prev| == |now| == |was| && p * k + k <= hi <= |prev| && now[..hi] == prev[..hi]
      ensures AnsweredAt(s, xq, p, k, nprobe, requireAll, now, count, was)
    {
      EarlierAnswerStays(s, Row(xq, s.d, p), Window(xq, s.d, p), p * k, k, nprobe, requireAll,
                         prev, count, was, now, hi);
    }

    static lemma EarlierAnswerStays(s: State, q: Vec, w: Vec, lo: nat, k: nat, nprobe: nat, requireAll: bool,
                                    prev: seq<Record>, count: int, was: seq<Record>, now: seq<Record>, hi: nat)
      requires WellFormed(s) && s.trained && 1 <= nprobe <= s.nCells
      requires Answered(s, q, w, lo, k, nprobe, requireAll, prev, count, was)
      requires |prev| == |now| == |was| && lo + k <= hi <= |prev| && now[..hi] == prev[..hi]
      ensures Answered(s, q, w, lo, k, nprobe, requireAll, now, count, was)
    {
      SlicesBelow(prev, now, hi, lo, k);
      AnsweredElsewhere(s, q, w, lo, k, nprobe, requireAll, prev, count, was, now, was);
    }

    static lemma NewAnswerStands(s: State, q: Vec, w: Vec, lo: nat, k: nat, nprobe: nat, requireAll: bool,
                                 now: seq<Record>, count: int, prev: seq<Record>, was: seq<Record>)
      requires WellFormed(s) && s.trained && 1 <= nprobe <= s.nCells
      requires Answered(s, q, w, lo, k, nprobe, requireAll, now, count, prev)
      requires |prev| == |now| == |was| && prev[lo..] == was[lo..]
      ensures Answered(s, q, w, lo, k, nprobe, requireAll, now, count, was)
    {
      assert prev[lo..lo + k] == prev[lo..][..k] == was[lo..][..k] == was[lo..lo + k];
      AnsweredElsewhere(s, q, w, lo, k, nprobe, requireAll, now, count, prev, now, was);
    }

    static lemma SlotsBelow(k: nat, p: nat, i: nat)
      requires p < i
      ensures p * k + k <= i * k
    {
      Times(p, 1, k);
      Times(p + 1, i - (p + 1), k);
    }

    static lemma SlicesBelow(a: seq<Record>, b: seq<Record>, hi: nat, lo: nat, k: nat)
      requires |a| == |b| && hi <= |a| && a[..hi] == b[..hi] && lo + k <= hi
      ensures a[lo..lo + k] == b[lo..lo + k]
    {
      assert a[lo..lo + k] == a[..hi][lo..lo + k];
      assert b[lo..lo + k] == b[..hi][lo..lo + k];
    }

    /** The body of search's loop for query i, whose slots start at lo. */
    method SearchOne(i: nat, lo: nat, q: Vec, w: Vec, k: nat, nprobe: nat, requireAll: bool,
                     data: array<Record>, cacheHits: array<int>)
      returns (ok: bool)
      requires Valid() && isTrained && 1 <= nprobe <= nCells && lo + k <= data.Length
      requires i < cacheHits.Length && cacheHits != residence
      modifies data, cacheHits
      ensures Abs() == old(Abs())
      ensures !ok ==> !Coherent(Abs())
      ensures ok ==> Answered(Abs(), q, w, lo, k, nprobe, requireAll, data[..], cacheHits[i], old(data[..]))
      ensures ok ==> data[..lo] == old(data[..lo]) && data[lo + k..] == old(data[lo + k..])
      ensures ok ==> forall p | 0 <= p < cacheHits.Length && p != i :: cacheHits[p] == old(cacheHits[p])
    {
      var cacheHit := CheckResidency(q, nprobe, requireAll);
      if cacheHit {
        var hits := Scan(Abs(), w, k, nprobe);
        ok := FillSlots(i, lo, k, hits, data, cacheHits);
        if !ok {
          NotCoherent(Abs(), w, k, nprobe);
          return;
        }
        assert data[..][lo..lo + k] == data[lo..lo + k];
      } else {
        cacheHits[i] := -1;
        ok := true;
      }
    }

    static lemma NotCoherent(s: State, w: Vec, k: nat, nprobe: nat)
      requires WellFormed(s) && s.trained && nprobe <= s.nCells && !Fetchable(s, Scan(s, w, k, nprobe))
      ensures !Coherent(s)
    {
      if Coherent(s) {
        ScanIsStored(s, w, k, nprobe);
      }
    }

    method CheckResidency(q: Vec, nprobe: nat, requireAll: bool) returns (cacheHit: bool)
      requires Valid() && isTrained && 1 <= nprobe <= nCells
      ensures cacheHit == IsHit(Abs(), q, nprobe, requireAll)
    {
      var cells := Probe(Abs().geo, q, nprobe);
      ProbeInRange(Abs().geo, q, nprobe);
      cacheHit := residence[cells[0]] > -1;
      if requireAll {
        var j := 1;
        while cacheHit && j < nprobe
          invariant 1 <= j <= nprobe
          invariant cacheHit ==> residence[cells[0]] > -1 && forall m | 1 <= m < j :: residence[cells[m]] != -1
          invariant !cacheHit ==> !IsHit(Abs(), q, nprobe, true)
        {
          if residence[cells[j]] == -1 {
            cacheHit := false;
          }
          j := j + 1;
        }
      }
    }

    /** The labels of one query, padded with -1 to k, copied into its k slots. */
    method FillSlots(i: nat, lo: nat, k: nat, hits: seq<Hit>, data: array<Record>, cacheHits: array<int>)
      returns (ok: bool)
      requires Valid() && |hits| <= k && i < cacheHits.Length && cacheHits != residence
      requires lo + k <= data.Length
      modifies data, cacheHits
      ensures ok == Fetchable(Abs(), hits)
      ensures ok ==> SlotsHold(Abs(), hits, data[lo..lo + k])
      ensures ok ==> data[..lo] == old(data[..lo]) && data[lo + k..] == old(data[lo + k..])
      ensures ok ==> cacheHits[..] == old(cacheHits[..])[i := |hits|]
    {
      var labels: seq<int> := seq(k, j requires 0 <= j < k => if j < |hits| then hits[j].num else -1);
      cacheHits[i] := 0;
      for j := 0 to k
        invariant cacheHits[..] == old(cacheHits[..])[i := Min(j, |hits|)]
        invariant forall m | 0 <= m < Min(j, |hits|) :: hits[m].num in dataMap && data[lo + m] == dataMap[hits[m].num]
        invariant forall m | lo + |hits| <= m < lo + j :: data[m] == EMPTY_RECORD
        invariant data[..lo] == old(data[..lo]) && data[lo + k..] == old(data[lo + k..])
      {
        if labels[j] == -1 {
          data[lo + j] := EMPTY_RECORD;
        } else {
          var num: nat := labels[j];
          if num !in dataMap {
            assert hits[j] in hits;
            return false;
          }
          data[lo + j] := dataMap[num];
          cacheHits[i] := cacheHits[i] + 1;
        }
      }
      return true;
    }
  }

  // ---------- the absorbing loop of loadCell ----------

  /** t is s after the rows have been absorbed into cell c, residency not yet marked. */
  ghost predicate Absorbed(s: State, c: nat, rows: seq<Record>, t: State)
    requires WellFormed(s) && c < s.nCells
  {
    AbsorbedKept(s, c, Kept(s.geo, c, rows), t)
  }

  lemma KeptGrows(geo: Geometry, c: nat, rows: seq<Record>, i: nat)
    requires i < |rows|
    ensures Kept(geo, c, rows[..i + 1]) ==
            Kept(geo, c, rows[..i]) + if Nearest(geo, rows[i].embedding) == c then [rows[i]] else []
    ensures Kept(geo, c, rows[..i + 1]) <= Kept(geo, c, rows)
  {
    assert rows[..i + 1] == rows[..i] + [rows[i]];
    KeptStep(geo, c, rows[..i], rows[i]);
    KeptPrefix(geo, c, rows, i + 1);
  }

  lemma KeptStep(geo: Geometry, c: nat, front: seq<Record>, r: Record)
    ensures Kept(geo, c, front + [r]) == Kept(geo, c, front) + if Nearest(geo, r.embedding) == c then [r] else []
  {
    assert (front + [r])[..|front|] == front;
  }

  lemma {:induction false} KeptPrefix(geo: Geometry, c: nat, rows: seq<Record>, i: nat)
    requires i <= |rows|
    ensures Kept(geo, c, rows[..i]) <= Kept(geo, c, rows)
  {
    if i == |rows| {
      assert rows[..i] == rows;
    } else {
      var n := |rows| - 1;
      KeptPrefix(geo, c, rows[..n], i);
      assert rows[..n][..i] == rows[..i];
    }
  }

  lemma AbsorbUnknown(s: State, c: nat, rows: seq<Record>, i: nat)
    requires WellFormed(s) && c < s.nCells && i < |rows|
    requires Nearest(s.geo, rows[i].embedding) == c && CStr(rows[i].id) !in s.idMap
    ensures !Loadable(s, c, rows)
  {
    assert rows[i] in Kept(s.geo, c, rows);
  }

  lemma AbsorbTwice(s: State, c: nat, rows: seq<Record>, i: nat, t: State)
    requires WellFormed(s) && c < s.nCells && i < |rows| && Absorbed(s, c, rows[..i], t)
    requires Nearest(s.geo, rows[i].embedding) == c && CStr(rows[i].id) in s.idMap
    requires s.idMap[CStr(rows[i].id)] in t.dataMap
    ensures !Loadable(s, c, rows)
  {
    KeptGrows(s.geo, c, rows, i);
    var front := Kept(s.geo, c, rows[..i]);
    var num := s.idMap[CStr(rows[i].id)];
    assert num in s.dataMap || num in Numbers(s.idMap, front);
    TakenNumber(s, front, rows[i], Kept(s.geo, c, rows));
  }

  lemma TakenNumber(s: State, front: seq<Record>, r: Record, kept: seq<Record>)
    requires front + [r] <= kept && Known(s.idMap, front) && CStr(r.id) in s.idMap
    requires s.idMap[CStr(r.id)] in s.dataMap || s.idMap[CStr(r.id)] in Numbers(s.idMap, front)
    ensures Known(s.idMap, kept) && NoRepeats(Numbers(s.idMap, kept)) ==>
              exists n :: n in Numbers(s.idMap, kept) && n in s.dataMap
  {
    if Known(s.idMap, kept) && NoRepeats(Numbers(s.idMap, kept)) {
      var nums := Numbers(s.idMap, kept);
      var num := s.idMap[CStr(r.id)];
      assert kept[|front|] == r && nums[|front|] == num;
      forall a | 0 <= a < |front|
        ensures Numbers(s.idMap, front)[a] != num
      {
        assert kept[a] == front[a] && nums[a] == Numbers(s.idMap, front)[a];
      }
      assert num in nums;
    }
  }

  lemma AbsorbNone(s: State, c: nat, none: seq<Record>)
    requires WellFormed(s) && c < s.nCells && none == []
    ensures Absorbed(s, c, none, s)
  {
    assert s.lists[c] + [] == s.lists[c];
    assert s.lists[c := s.lists[c]] == s.lists;
    assert s.dataMap + map[] == s.dataMap;
  }

  lemma AppendRecord(idMap: map<Bytes, nat>, front: seq<Record>, r: Record)
    requires Known(idMap, front) && NoRepeats(Numbers(idMap, front))
    requires CStr(r.id) in idMap && idMap[CStr(r.id)] !in Numbers(idMap, front)
    ensures Known(idMap, front + [r]) && NoRepeats(Numbers(idMap, front + [r]))
    ensures Numbers(idMap, front + [r]) == Numbers(idMap, front) + [idMap[CStr(r.id)]]
    ensures Entries(idMap, front + [r]) == Entries(idMap, front) + [Entry(idMap[CStr(r.id)], r.embedding)]
  {
    assert Known(idMap, front + [r]);
    assert Numbers(idMap, front + [r]) == Numbers(idMap, front) + [idMap[CStr(r.id)]];
  }

  lemma AppendKeyed(idMap: map<Bytes, nat>, front: seq<Record>, r: Record)
    requires Known(idMap, front) && NoRepeats(Numbers(idMap, front))
    requires CStr(r.id) in idMap && idMap[CStr(r.id)] !in Numbers(idMap, front)
    requires Known(idMap, front + [r]) && NoRepeats(Numbers(idMap, front + [r]))
    requires Numbers(idMap, front + [r]) == Numbers(idMap, front) + [idMap[CStr(r.id)]]
    ensures Keyed(idMap, front + [r]) == Keyed(idMap, front)[idMap[CStr(r.id)] := r]
  {
    var num := idMap[CStr(r.id)];
    var x, y := Keyed(idMap, front + [r]), Keyed(idMap, front)[num := r];
    KeyedAt(idMap, front + [r], |front|);
    forall n | n in Numbers(idMap, front)
      ensures n in x && n in y && x[n] == y[n]
    {
      KeyedInFront(idMap, front, r, n);
    }
    assert x.Keys == y.Keys;
  }

  lemma KeyedInFront(idMap: map<Bytes, nat>, front: seq<Record>, r: Record, n: nat)
    requires Known(idMap, front) && NoRepeats(Numbers(idMap, front))
    requires Known(idMap, front + [r]) && NoRepeats(Numbers(idMap, front + [r]))
    requires Numbers(idMap, front + [r]) == Numbers(idMap, front) + [idMap[CStr(r.id)]]
    requires n in Numbers(idMap, front)
    ensures n in Keyed(idMap, front) && n in Keyed(idMap, front + [r])
    ensures Keyed(idMap, front)[n] == Keyed(idMap, front + [r])[n]
  {
    var i :| 0 <= i < |front| && Numbers(idMap, front)[i] == n;
    KeyedAt(idMap, front, i);
    KeyedAt(idMap, front + [r], i);
  }

  lemma KeyedAt(idMap: map<Bytes, nat>, recs: seq<Record>, i: nat)
    requires Known(idMap, recs) && NoRepeats(Numbers(idMap, recs)) && i < |recs|
    ensures var n := Numbers(idMap, recs)[i]; n in Keyed(idMap, recs) && Keyed(idMap, recs)[n] == recs[i]
  {
  }

  lemma AbsorbOne(s: State, c: nat, rows: seq<Record>, i: nat, t: State)
    requires WellFormed(s) && c < s.nCells && i < |rows| && Absorbed(s, c, rows[..i], t)
    requires Nearest(s.geo, rows[i].embedding) == c && CStr(rows[i].id) in s.idMap
    requires s.idMap[CStr(rows[i].id)] !in t.dataMap
    ensures var num := s.idMap[CStr(rows[i].id)];
            Absorbed(s, c, rows[..i + 1], t.(dataMap := t.dataMap[num := rows[i]],
                                             lists := t.lists[c := t.lists[c] + [Entry(num, rows[i].embedding)]]))
  {
    KeptGrows(s.geo, c, rows, i);
    AbsorbKept(s, c, Kept(s.geo, c, rows[..i]), rows[i], t);
  }

  lemma AbsorbSkip(s: State, c: nat, rows: seq<Record>, i: nat, t: State)
    requires WellFormed(s) && c < s.nCells && i < |rows| && Absorbed(s, c, rows[..i], t)
    requires Nearest(s.geo, rows[i].embedding) != c
    ensures Absorbed(s, c, rows[..i + 1], t)
  {
    KeptGrows(s.geo, c, rows, i);
    assert Kept(s.geo, c, rows[..i + 1]) == Kept(s.geo, c, rows[..i]);
  }

  /** Absorbed, in terms of the kept records. */
  ghost predicate AbsorbedKept(s: State, c: nat, kept: seq<Record>, t: State)
    requires WellFormed(s) && c < s.nCells
  {
    && Known(s.idMap, kept)
    && NoRepeats(Numbers(s.idMap, kept))
    && (forall n | n in Numbers(s.idMap, kept) :: n !in s.dataMap)
    && t == s.(dataMap := s.dataMap + Keyed(s.idMap, kept), lists := s.lists[c := s.lists[c] + Entries(s.idMap, kept)])
  }

  lemma AbsorbKept(s: State, c: nat, front: seq<Record>, r: Record, t: State)
    requires WellFormed(s) && c < s.nCells && AbsorbedKept(s, c, front, t)
    requires CStr(r.id) in s.idMap && s.idMap[CStr(r.id)] !in t.dataMap
    ensures var num := s.idMap[CStr(r.id)];
            AbsorbedKept(s, c, front + [r], t.(dataMap := t.dataMap[num := r],
                                               lists := t.lists[c := t.lists[c] + [Entry(num, r.embedding)]]))
  {
    var num := s.idMap[CStr(r.id)];
    NumbersAreKeys(s.idMap, front);
    AppendRecord(s.idMap, front, r);
    AppendKeyed(s.idMap, front, r);
    AbsorbUpdate(s, c, Keyed(s.idMap, front), Entries(s.idMap, front), num, r);
  }

  lemma NumbersAreKeys(idMap: map<Bytes, nat>, recs: seq<Record>)
    requires Known(idMap, recs) && NoRepeats(Numbers(idMap, recs))
    ensures forall n | n in Numbers(idMap, recs) :: n in Keyed(idMap, recs)
  {
    assert forall a | 0 <= a < |recs| :: Numbers(idMap, recs)[a] in Keyed(idMap, recs);
  }

  lemma AbsorbUpdate(s: State, c: nat, m: map<nat, Record>, es: seq<Entry>, num: nat, r: Record)
    requires WellFormed(s) && c < s.nCells
    ensures (s.dataMap + m)[num := r] == s.dataMap + m[num := r]
    ensures var l := s.lists[c := s.lists[c] + es];
            l[c := l[c] + [Entry(num, r.embedding)]] == s.lists[c := s.lists[c] + (es + [Entry(num, r.embedding)])]
  {
    var l := s.lists[c := s.lists[c] + es];
    assert l[c] + [Entry(num, r.embedding)] == s.lists[c] + (es + [Entry(num, r.embedding)]);
  }
}

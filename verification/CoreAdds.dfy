/** What an ADD registers, id by id: in which cell, at which place, under which number. */
module CoreAdds {
  import opened Bytes
  import opened Ranking
  import opened CoreState
  import opened CoreInvariants

  /** The ids as C strings. */
  function Keys(ids: seq<Bytes>): (r: seq<Bytes>)
    ensures |r| == |ids| && forall i | 0 <= i < |ids| :: r[i] == CStr(ids[i])
  {
    seq(|ids|, i requires 0 <= i < |ids| => CStr(ids[i]))
  }

  /** The keys labelled c, in order. */
  function Labelled<T>(keys: seq<T>, labels: seq<nat>, c: nat): seq<T>
    requires |keys| == |labels|
  {
    if keys == [] then []
    else (if labels[0] == c then [keys[0]] else []) + Labelled(keys[1..], labels[1..], c)
  }

  /** The places among the first n that are labelled c. */
  function Places(labels: seq<nat>, c: nat, n: nat): set<nat>
    requires n <= |labels|
  {
    set j: nat | j < n && labels[j] == c
  }

  lemma {:induction false} LabelledLast<T>(keys: seq<T>, labels: seq<nat>, c: nat, key: T, last: nat)
    requires |keys| == |labels|
    ensures Labelled(keys + [key], labels + [last], c)
            == Labelled(keys, labels, c) + if last == c then [key] else []
    decreases |keys|
  {
    if keys == [] {
      assert keys + [key] == [key] && labels + [last] == [last];
      assert [key][1..] == [] && [last][1..] == [];
    } else {
      assert (keys + [key])[1..] == keys[1..] + [key] && (labels + [last])[1..] == labels[1..] + [last];
      LabelledLast(keys[1..], labels[1..], c, key, last);
      Assoc(if labels[0] == c then [keys[0]] else [], Labelled(keys[1..], labels[1..], c),
            if last == c then [key] else []);
    }
  }

  lemma OneMoreLabelled<T>(keys: seq<T>, labels: seq<nat>, c: nat, m: nat)
    requires m < |keys| == |labels|
    ensures Labelled(keys[..m + 1], labels[..m + 1], c)
            == Labelled(keys[..m], labels[..m], c) + if labels[m] == c then [keys[m]] else []
  {
    LabelledLast(keys[..m], labels[..m], c, keys[m], labels[m]);
    assert keys[..m + 1] == keys[..m] + [keys[m]] && labels[..m + 1] == labels[..m] + [labels[m]];
  }

  lemma OneMorePlace(labels: seq<nat>, c: nat, m: nat)
    requires m < |labels|
    ensures |Places(labels, c, m + 1)| == |Places(labels, c, m)| + if labels[m] == c then 1 else 0
  {
    assert Places(labels, c, m + 1) == Places(labels, c, m) + if labels[m] == c then {m} else {};
  }

  /** There are as many keys labelled c as places; and a key labelled c stands after the earlier
      ones that are. */
  lemma {:induction false} LabelledPlaces<T>(keys: seq<T>, labels: seq<nat>, c: nat, n: nat)
    requires n <= |keys| == |labels|
    ensures |Labelled(keys[..n], labels[..n], c)| == |Places(labels, c, n)|
    ensures forall i: nat | i < n && labels[i] == c ::
              StandsAt(Labelled(keys[..n], labels[..n], c), labels, c, i, keys[i])
  {
    if n == 0 {
      assert Places(labels, c, 0) == {};
    } else {
      LabelledPlaces(keys, labels, c, n - 1);
      OneMoreLabelled(keys, labels, c, n - 1);
      OneMorePlace(labels, c, n - 1);
    }
  }

  ghost predicate StandsAt<T>(picked: seq<T>, labels: seq<nat>, c: nat, i: nat, key: T)
    requires i < |labels|
  {
    var p := |Places(labels, c, i)|;
    p < |picked| && picked[p] == key
  }

  /** ADD writes to the registrations and to nothing else: index, data map, residency and
      geometry stay, whatever is added. Each cell gets the ids whose vectors are nearest to it. */
  lemma {:induction false} AddRegisters(s: State, ids: seq<Bytes>, vs: seq<Vec>)
    requires WellFormed(s) && s.trained && s.nCells > 0 && |ids| == |vs|
    ensures var t := AddRows(s, ids, vs);
            && t.lists == s.lists && t.dataMap == s.dataMap && t.residence == s.residence
            && t.geo == s.geo && t.d == s.d && t.nCells == s.nCells && t.trained == s.trained
            && (forall c: nat | c < s.nCells ::
                  t.idsByCell[c] == s.idsByCell[c] + Labelled(Keys(ids), NearestOf(s.geo, vs), c))
    decreases |ids|
  {
    if ids == [] {
      assert forall c: nat | c < s.nCells :: s.idsByCell[c] + [] == s.idsByCell[c];
    } else {
      AddOneJoins(s, ids[0], vs[0]);
      var u := AddOne(s, ids[0], vs[0]);
      AddRegisters(u, ids[1..], vs[1..]);
      Tails(s.geo, ids, vs);
      JoinsFirst(s, u, AddRows(s, ids, vs), Keys(ids), NearestOf(s.geo, vs));
    }
  }

  lemma AddOneJoins(s: State, id: Bytes, v: Vec)
    requires WellFormed(s) && s.trained && s.nCells > 0
    ensures Nearest(s.geo, v) < s.nCells
    ensures var u := AddOne(s, id, v);
            forall c: nat | c < s.nCells ::
              u.idsByCell[c] == s.idsByCell[c] + if Nearest(s.geo, v) == c then [CStr(id)] else []
  {
    NearestInRange(s.geo, v);
  }

  lemma Tails(geo: Geometry, ids: seq<Bytes>, vs: seq<Vec>)
    requires |ids| == |vs| > 0
    ensures Keys(ids)[0] == CStr(ids[0]) && Keys(ids)[1..] == Keys(ids[1..])
    ensures NearestOf(geo, vs)[0] == Nearest(geo, vs[0]) && NearestOf(geo, vs)[1..] == NearestOf(geo, vs[1..])
  {
  }

  lemma JoinsFirst(s: State, u: State, t: State, keys: seq<Bytes>, labels: seq<nat>)
    requires |s.idsByCell| == |u.idsByCell| == |t.idsByCell| && |keys| == |labels| > 0
    requires forall c: nat | c < |s.idsByCell| ::
               u.idsByCell[c] == s.idsByCell[c] + if labels[0] == c then [keys[0]] else []
    requires forall c: nat | c < |s.idsByCell| ::
               t.idsByCell[c] == u.idsByCell[c] + Labelled(keys[1..], labels[1..], c)
    ensures forall c: nat | c < |s.idsByCell| :: t.idsByCell[c] == s.idsByCell[c] + Labelled(keys, labels, c)
  {
    forall c: nat | c < |s.idsByCell|
      ensures t.idsByCell[c] == s.idsByCell[c] + Labelled(keys, labels, c)
    {
      Assoc(s.idsByCell[c], if labels[0] == c then [keys[0]] else [], Labelled(keys[1..], labels[1..], c));
    }
  }

  /** In t, cell c holds its registrations of s and one more for each vector nearest to it. */
  ghost predicate GrownBy(s: State, t: State, c: nat, labels: seq<nat>)
    requires WellFormed(s) && WellFormed(t) && c < s.nCells == t.nCells
  {
    s.idsByCell[c] <= t.idsByCell[c] && |t.idsByCell[c]| == |s.idsByCell[c]| + |Places(labels, c, |labels|)|
  }

  /** In t, id i is in the cell its vector is nearest to, after the registrations of s and after
      the earlier ids of the same ADD that belong there. */
  ghost predicate PlacedAt(s: State, t: State, id: Bytes, labels: seq<nat>, i: nat)
    requires WellFormed(s) && WellFormed(t) && s.nCells == t.nCells && i < |labels|
  {
    var c := labels[i];
    && c < s.nCells
    && var p := |s.idsByCell[c]| + |Places(labels, c, i)|;
    && p < |t.idsByCell[c]|
    && t.idsByCell[c][p] == CStr(id)
  }

  /** Where ADD puts each id, given which cell each vector is nearest to; nothing else joins a
      cell. */
  lemma AddPlaces(s: State, ids: seq<Bytes>, vs: seq<Vec>, labels: seq<nat>)
    requires WellFormed(s) && s.trained && s.nCells > 0 && |ids| == |vs| == |labels|
    requires forall i: nat | i < |vs| :: labels[i] == Nearest(s.geo, vs[i])
    ensures forall c: nat | c < s.nCells :: GrownBy(s, AddRows(s, ids, vs), c, labels)
    ensures forall i: nat | i < |ids| :: PlacedAt(s, AddRows(s, ids, vs), ids[i], labels, i)
  {
    AddRegisters(s, ids, vs);
    assert labels == NearestOf(s.geo, vs);
    forall i: nat | i < |ids|
      ensures labels[i] < s.nCells
    {
      NearestInRange(s.geo, vs[i]);
    }
    RegisteredAll(s, AddRows(s, ids, vs), ids, labels);
  }

  lemma RegisteredAll(s: State, t: State, ids: seq<Bytes>, labels: seq<nat>)
    requires WellFormed(s) && WellFormed(t) && s.nCells == t.nCells && |ids| == |labels|
    requires forall i: nat | i < |ids| :: labels[i] < s.nCells
    requires forall c: nat | c < s.nCells :: t.idsByCell[c] == s.idsByCell[c] + Labelled(Keys(ids), labels, c)
    ensures forall c: nat | c < s.nCells :: GrownBy(s, t, c, labels)
    ensures forall i: nat | i < |ids| :: PlacedAt(s, t, ids[i], labels, i)
  {
    var keys := Keys(ids);
    assert keys[..|keys|] == keys && labels[..|labels|] == labels;
    forall c: nat | c < s.nCells
      ensures GrownBy(s, t, c, labels)
    {
      LabelledPlaces(keys, labels, c, |keys|);
    }
    forall i: nat | i < |ids|
      ensures PlacedAt(s, t, ids[i], labels, i)
    {
      LabelledPlaces(keys, labels, labels[i], |keys|);
      assert StandsAt(Labelled(keys, labels, labels[i]), labels, labels[i], i, keys[i]);
    }
  }

  /** An id the map does not know yet gets the counter's value at its turn, known or not what
      the other ids are. */
  lemma {:induction false} AddNumbersInOrder(s: State, ids: seq<Bytes>, vs: seq<Vec>, i: nat)
    requires WellFormed(s) && s.trained && s.nCells > 0 && |ids| == |vs| && FirstSeen(s, ids, i)
    ensures var t := AddRows(s, ids, vs);
            CStr(ids[i]) in t.idMap && t.idMap[CStr(ids[i])] == s.nextId + i && t.nextId == s.nextId + |ids|
    decreases i
  {
    AddOneNumbers(s, ids[0], vs[0]);
    var u := AddOne(s, ids[0], vs[0]);
    if i == 0 {
      NumberStays(u, ids[1..], vs[1..], CStr(ids[0]));
    } else {
      StillNew(s, u, ids, i);
      AddNumbersInOrder(u, ids[1..], vs[1..], i - 1);
    }
  }

  /** The map does not know id i, and it is none of the ids before. */
  ghost predicate FirstSeen(s: State, ids: seq<Bytes>, i: nat) {
    && i < |ids|
    && CStr(ids[i]) !in s.idMap
    && forall j | 0 <= j < i :: CStr(ids[j]) != CStr(ids[i])
  }

  lemma StillNew(s: State, u: State, ids: seq<Bytes>, i: nat)
    requires 0 < i && FirstSeen(s, ids, i) && Extends(s, u, 1, {CStr(ids[0])})
    ensures FirstSeen(u, ids[1..], i - 1) && ids[1..][i - 1] == ids[i] && u.nextId == s.nextId + 1
  {
    assert CStr(ids[0]) != CStr(ids[i]);
    assert forall j | 0 <= j < i - 1 :: ids[1..][j] == ids[j + 1];
  }

  lemma NumberStays(s: State, ids: seq<Bytes>, vs: seq<Vec>, key: Bytes)
    requires WellFormed(s) && s.trained && s.nCells > 0 && |ids| == |vs| && key in s.idMap
    ensures var t := AddRows(s, ids, vs);
            key in t.idMap && t.idMap[key] == s.idMap[key] && t.nextId == s.nextId + |ids|
  {
    AddKeepsNumbers(s, ids, vs);
  }

  /** Id i of an ADD has joined the cell whose centroid is nearest to floats i * d to i * d + d,
      and row i is those floats. */
  ghost predicate RegisteredAt(s: State, t: State, ids: seq<Bytes>, x: Vec, i: nat)
    requires WellFormed(s) && WellFormed(t) && t.nCells == s.nCells && i < |ids|
  {
    && i * s.d >= 0 && i * s.d + s.d <= |x|
    && var c := Nearest(s.geo, x[i * s.d..i * s.d + s.d]);
    && c < s.nCells
    && s.idsByCell[c] <= t.idsByCell[c]
    && CStr(ids[i]) in t.idsByCell[c][|s.idsByCell[c]|..]
  }

  lemma AddedRowsRegister(s: State, ids: seq<Bytes>, x: Vec, n: nat)
    requires WellFormed(s) && s.trained && s.nCells > 0 && n <= |ids| && n * s.d <= |x|
    ensures forall i: nat | i < n :: RegisteredAt(s, AddRows(s, ids[..n], RowsOf(x, s.d, n)), ids, x, i)
  {
    var labels := NearestOf(s.geo, RowsOf(x, s.d, n));
    AddPlaces(s, ids[..n], RowsOf(x, s.d, n), labels);
    RowLabels(s, x, n, labels);
    RowsRegister(s, AddRows(s, ids[..n], RowsOf(x, s.d, n)), ids, x, n, labels);
  }

  /** Vector i is nearest to the cell with label i, and is where the array says. */
  ghost predicate LabelAt(s: State, x: Vec, i: nat, c: nat) {
    i * s.d >= 0 && i * s.d + s.d <= |x| && c == Nearest(s.geo, x[i * s.d..i * s.d + s.d])
  }

  lemma RowLabels(s: State, x: Vec, n: nat, labels: seq<nat>)
    requires n * s.d <= |x| && labels == NearestOf(s.geo, RowsOf(x, s.d, n))
    ensures forall i: nat | i < n :: LabelAt(s, x, i, labels[i])
  {
    forall i: nat | i < n
      ensures LabelAt(s, x, i, labels[i])
    {
      RowLabel(s, x, n, i);
    }
  }

  lemma RowLabel(s: State, x: Vec, n: nat, i: nat)
    requires i < n && n * s.d <= |x|
    ensures LabelAt(s, x, i, Nearest(s.geo, Row(x, s.d, i)))
  {
    RowFits(x, s.d, i, n);
    RowIs(x, s.d, i);
    LabelOf(s, x, i, Row(x, s.d, i));
  }

  lemma LabelOf(s: State, x: Vec, i: nat, v: Vec)
    requires i * s.d >= 0 && i * s.d + s.d <= |x| && v == x[i * s.d..i * s.d + s.d]
    ensures LabelAt(s, x, i, Nearest(s.geo, v))
  {
  }

  lemma RowsRegister(s: State, t: State, ids: seq<Bytes>, x: Vec, n: nat, labels: seq<nat>)
    requires WellFormed(s) && WellFormed(t) && t.nCells == s.nCells && n == |labels| <= |ids|
    requires forall i: nat | i < n :: LabelAt(s, x, i, labels[i])
    requires forall c: nat | c < s.nCells :: GrownBy(s, t, c, labels)
    requires forall i: nat | i < n :: PlacedAt(s, t, ids[..n][i], labels, i)
    ensures forall i: nat | i < n :: RegisteredAt(s, t, ids, x, i)
  {
    forall i: nat | i < n
      ensures RegisteredAt(s, t, ids, x, i)
    {
      assert LabelAt(s, x, i, labels[i]) && PlacedAt(s, t, ids[..n][i], labels, i);
      PlacedIsRegistered(s, t, labels, ids, x, i);
    }
  }

  lemma PlacedIsRegistered(s: State, t: State, labels: seq<nat>, ids: seq<Bytes>, x: Vec, i: nat)
    requires WellFormed(s) && WellFormed(t) && t.nCells == s.nCells && i < |labels| <= |ids|
    requires LabelAt(s, x, i, labels[i]) && PlacedAt(s, t, ids[i], labels, i)
    requires forall c: nat | c < s.nCells :: GrownBy(s, t, c, labels)
    ensures RegisteredAt(s, t, ids, x, i)
  {
    var c := labels[i];
    assert GrownBy(s, t, c, labels);
    InTail(t.idsByCell[c], |s.idsByCell[c]|, |s.idsByCell[c]| + |Places(labels, c, i)|);
  }

  lemma InTail<T>(s: seq<T>, from: nat, p: nat)
    requires from <= p < |s|
    ensures s[p] in s[from..]
  {
    assert s[from..][p - from] == s[p];
  }
}

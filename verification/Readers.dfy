/** The readers of args.h and args.cpp in their own form: fields filled from a stream that is
    consumed as it is read. Each is tied to the parser of Args.dfy on the bytes it was given;
    false or None stands for a read that runs out of bytes and ends the process. */
module Readers {
  import opened Bytes
  import opened Commands
  import opened Args

  /** An istream over the session's buffer. */
  class InStream {
    var data: Bytes

    constructor (data: Bytes)
      ensures this.data == data
    {
      this.data := data;
    }

    method ReadByte() returns (r: Option<byte>)
      modifies this
      ensures r.Some? <==> |old(data)| >= 1
      ensures r.Some? ==> r.value == old(data)[0] && data == old(data)[1..]
    {
      if data == [] {
        return None;
      }
      r := Some(data[0]);
      data := data[1..];
    }

    method ReadU64() returns (r: Option<nat>)
      modifies this
      ensures r.Some? <==> TakeU64(old(data)).Some?
      ensures r.Some? ==> TakeU64(old(data)) == Some((r.value, data))
    {
      if |data| < 8 {
        return None;
      }
      r := Some(FromLittleEndian(data[..8]));
      data := data[8..];
    }

    method ReadBool() returns (r: Option<bool>)
      modifies this
      ensures r.Some? <==> TakeBool(old(data)).Some?
      ensures r.Some? ==> TakeBool(old(data)) == Some((r.value, data))
    {
      var b := ReadByte();
      if b.None? {
        return None;
      }
      return Some(b.value != 0);
    }

    method ReadStaticDelimiter() returns (ok: bool)
      modifies this
      ensures ok <==> Skip(old(data), 1).Some?
      ensures ok ==> Skip(old(data), 1) == Some(data)
    {
      // A character other than '\n' is reported and otherwise accepted.
      var temp := ReadByte();
      return temp.Some?;
    }

    method ReadEndDelimiter() returns (ok: bool)
      modifies this
      ensures ok <==> Skip(old(data), 2).Some?
      ensures ok ==> Skip(old(data), 2) == Some(data)
    {
      var temp := ReadByte();
      if temp.None? {
        return false;
      }
      temp := ReadByte();
      return temp.Some?;
    }

    /** read_dynamic_data<char>, one character at a time. */
    method ReadChars(size: nat) returns (r: Option<Bytes>)
      modifies this
      ensures r.Some? <==> |old(data)| >= size
      ensures r.Some? ==> TakeBytes(old(data), size) == Some((r.value, data))
    {
      var chars: Bytes := [];
      for i := 0 to size
        invariant i <= |old(data)| && chars == old(data)[..i] && data == old(data)[i..]
      {
        var c := ReadByte();
        if c.None? {
          return None;
        }
        chars := chars + [c.value];
      }
      return Some(chars);
    }

    method ReadFloat() returns (r: Option<Float>)
      modifies this
      ensures r.Some? <==> |old(data)| >= 4
      ensures r.Some? ==>
        r.value == Float(old(data)[0], old(data)[1], old(data)[2], old(data)[3]) && data == old(data)[4..]
    {
      if |data| < 4 {
        return None;
      }
      r := Some(Float(data[0], data[1], data[2], data[3]));
      data := data[4..];
    }

    /** read_dynamic_data<float>. */
    method ReadFloats(size: nat) returns (r: Option<Vec>)
      modifies this
      ensures r.Some? <==> TakeFloats(old(data), size).Some?
      ensures r.Some? ==> TakeFloats(old(data), size) == Some((r.value, data))
    {
      var floats: Vec := [];
      ghost var all := TakeFloats(data, size);
      AfterNothing(all);
      for i := 0 to size
        invariant After(floats, TakeFloats(data, size - i)) == all
      {
        FloatsStep(floats, size - i, data);
        var f := ReadFloat();
        if f.None? {
          return None;
        }
        floats := floats + [f.value];
      }
      assert floats + [] == floats;
      return Some(floats);
    }

    static lemma FloatsStep(got: Vec, n: nat, bs: Bytes)
      requires n > 0
      ensures After(got, TakeFloats(bs, n)) ==
              if |bs| < 4 then None
              else After(got + [Float(bs[0], bs[1], bs[2], bs[3])], TakeFloats(bs[4..], n - 1))
    {
      if |bs| >= 4 {
        var f, rest := Float(bs[0], bs[1], bs[2], bs[3]), TakeFloats(bs[4..], n - 1);
        assert rest.Some? ==> got + ([f] + rest.value.0) == (got + [f]) + rest.value.0;
      }
    }

    static function AheadIds(got: seq<Bytes>, rest: Option<(seq<Bytes>, nat, Bytes)>):
      Option<(seq<Bytes>, nat, Bytes)> {
      match rest
      case None => None
      case Some(p) => Some((got + p.0, p.1, p.2))
    }

    /** The id loop of AddArgs::deserialize_dynamic, with its running totalSize. */
    method ReadIds(numDocs: nat) returns (r: Option<(seq<Bytes>, nat)>)
      modifies this
      ensures r.Some? <==> ParseIds(numDocs, 0, old(data)).Some?
      ensures r.Some? ==> ParseIds(numDocs, 0, old(data)) == Some((r.value.0, r.value.1, data))
    {
      var ids: seq<Bytes> := [];
      var totalSize: nat := 0;
      ghost var all := ParseIds(numDocs, 0, data);
      assert all.Some? ==> [] + all.value.0 == all.value.0;
      ghost var left := numDocs;
      for i := 0 to numDocs
        invariant left == numDocs - i && AheadIds(ids, ParseIds(left, totalSize, data)) == all
      {
        IdsStep(ids, left, totalSize, data);
        var id := ReadId();
        if id.None? {
          return None;
        }
        totalSize := Wrap64(totalSize + |id.value| + 8);
        ids := ids + [id.value];
        left := left - 1;
      }
      assert ids + [] == ids;
      return Some((ids, totalSize));
    }

    method ReadId() returns (r: Option<Bytes>)
      modifies this
      ensures r.Some? <==> TakeId(old(data)).Some?
      ensures r.Some? ==> TakeId(old(data)) == Some((r.value, data))
    {
      var idLen := ReadU64();
      if idLen.None? {
        return None;
      }
      r := ReadChars(idLen.value);
    }

    /** One length-prefixed id. */
    static function TakeId(bs: Bytes): Option<(Bytes, Bytes)> {
      var (idLen, b1) :- TakeU64(bs);
      TakeBytes(b1, idLen)
    }

    static lemma IdsStep(got: seq<Bytes>, n: nat, total: nat, bs: Bytes)
      requires n > 0
      ensures AheadIds(got, ParseIds(n, total, bs)) ==
              match TakeId(bs)
              case None => None
              case Some(p) => AheadIds(got + [p.0], ParseIds(n - 1, Wrap64(total + |p.0| + 8), p.1))
    {
      if TakeId(bs).Some? {
        var (id, b2) := TakeId(bs).value;
        var rest := ParseIds(n - 1, Wrap64(total + |id| + 8), b2);
        assert rest.Some? ==> got + ([id] + rest.value.0) == (got + [id]) + rest.value.0;
      }
    }

    method DeserializeStatic(c: Command) returns (r: Option<Header>)
      modifies this
      ensures r.Some? <==> ParseStatic(c, old(data)).Some?
      ensures r.Some? ==> ParseStatic(c, old(data)) == Some((r.value, data))
    {
      if c == INITIALIZE || c == SEARCH {
        r := DeserializeFourFields(c);
      } else {
        var first := 0;
        if c != TRAIN {
          var f := ReadU64();
          if f.None? {
            return None;
          }
          first := f.value;
        }
        var size := ReadU64();
        if size.None? {
          return None;
        }
        var ok := ReadStaticDelimiter();
        if !ok {
          return None;
        }
        if c == TRAIN {
          return Some(TrainHeader(size.value));
        } else if c == LOAD {
          return Some(LoadHeader(first, size.value));
        } else if c == EVICT {
          return Some(EvictHeader(first, size.value));
        }
        return Some(AddHeader(first, size.value));
      }
    }

    /** The static parts of INITIALIZE and SEARCH: three numbers, a bool, the size. */
    method DeserializeFourFields(c: Command) returns (r: Option<Header>)
      requires c == INITIALIZE || c == SEARCH
      modifies this
      ensures r.Some? <==> ParseStatic(c, old(data)).Some?
      ensures r.Some? ==> ParseStatic(c, old(data)) == Some((r.value, data))
    {
      var x := ReadU64();
      if x.None? {
        return None;
      }
      var y := ReadU64();
      if y.None? {
        return None;
      }
      var z := ReadU64();
      if z.None? {
        return None;
      }
      var flag := ReadBool();
      if flag.None? {
        return None;
      }
      var size := ReadU64();
      if size.None? {
        return None;
      }
      var ok := ReadStaticDelimiter();
      if !ok {
        return None;
      }
      if c == INITIALIZE {
        return Some(InitializeHeader(x.value, y.value, z.value, flag.value, size.value));
      }
      return Some(SearchHeader(x.value, y.value, z.value, flag.value, size.value));
    }

    method DeserializeDynamic(h: Header) returns (r: Option<Args>)
      modifies this
      ensures r.Some? <==> ParseDynamic(h, old(data)).Some?
      ensures r.Some? ==> ParseDynamic(h, old(data)) == Some((r.value, data))
    {
      if h.InitializeHeader? {
        var url := ReadChars(h.size);
        if url.None? {
          return None;
        }
        var ok := ReadEndDelimiter();
        return if ok then Some(InitializeArgs(h.d, h.maxMem, h.nTotal, h.useFlat, url.value)) else None;
      } else if h.AddHeader? {
        r := DeserializeAdd(h.numDocs, h.size);
        return;
      }
      var v := ReadFloats(FloatsIn(h.size));
      if v.None? {
        return None;
      }
      var ok := ReadEndDelimiter();
      if !ok {
        return None;
      }
      if h.TrainHeader? {
        return Some(TrainArgs(v.value));
      } else if h.LoadHeader? {
        return Some(LoadArgs(h.nload, v.value));
      } else if h.SearchHeader? {
        return Some(SearchArgs(h.n, h.k, h.nprobe, h.requireAll, v.value));
      }
      return Some(EvictArgs(h.nevict, v.value));
    }

    method DeserializeAdd(numDocs: nat, size: nat) returns (r: Option<Args>)
      modifies this
      ensures r.Some? <==> ParseAdd(numDocs, size, old(data)).Some?
      ensures r.Some? ==> ParseAdd(numDocs, size, old(data)) == Some((r.value, data))
    {
      var ids := ReadIds(numDocs);
      if ids.None? {
        return None;
      }
      r := ReadEmbeddings(ids.value.0, NumFloats(size, Wrap64(ids.value.1 + 1)));
    }

    method ReadEmbeddings(ids: seq<Bytes>, numFloats: nat) returns (r: Option<Args>)
      modifies this
      ensures r.Some? <==> ParseEmbeddings(ids, numFloats, old(data)).Some?
      ensures r.Some? ==> ParseEmbeddings(ids, numFloats, old(data)) == Some((r.value, data))
    {
      var ok := ReadStaticDelimiter();
      if !ok {
        return None;
      }
      var embeddings := ReadFloats(numFloats);
      if embeddings.None? {
        return None;
      }
      ok := ReadEndDelimiter();
      if !ok {
        return None;
      }
      return Some(AddArgs(ids, embeddings.value));
    }
  }
}

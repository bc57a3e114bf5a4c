/** The emitted read and write in their own form: loops that consume a protocol's input or
    append to its output, proved against the functions of Serialization.dfy. */
module EmittedCode {
  import opened Serialization
  import opened Wrappers
  import Evolution

  class Protocol {
    var tokens: Tokens

    constructor (tokens: Tokens)
      ensures this.tokens == tokens
    {
      this.tokens := tokens;
    }

    // ----- write -----

    method WriteValue(ty: Type, v: Value)
      requires Conforms(ty, v)
      modifies this
      ensures tokens == old(tokens) + Write(ty, v)
      decreases ty, 1
    {
      match ty {
        case Struct(fs) => WriteStruct(fs, v.slots);
        case List(e) =>
          tokens := tokens + [ListBegin(WireOf(e), |v.elems|)];
          WriteElements(e, v.elems);
        case Set(e) =>
          tokens := tokens + [SetBegin(WireOf(e), |v.elems|)];
          WriteElements(e, v.elems);
        case Map(k, w) =>
          tokens := tokens + [MapBegin(WireOf(k), WireOf(w), |v.entries|)];
          WriteMap(k, w, v.entries);
        case _ =>
          tokens := tokens + [Data(WireOf(ty), v.datum)];
      }
    }

    method WriteStruct(fs: seq<Field>, slots: seq<Slot>)
      requires ConformSlots(fs, slots)
      modifies this
      ensures tokens == old(tokens) + (WriteFields(fs, slots, Order(fs, |fs|)) + [FieldStop])
      decreases Struct(fs), 0
    {
      var order := Order(fs, |fs|);
      var k := 0;
      while k < |order|
        invariant 0 <= k <= |order|
        invariant old(tokens) + WriteFields(fs, slots, order) == tokens + WriteFields(fs, slots, order[k..])
      {
        var i := order[k];
        ghost var before, rest := tokens, WriteFields(fs, slots, order[k + 1..]);
        assert order[k..][1..] == order[k + 1..];
        if Written(fs[i], slots[i]) {
          tokens := tokens + [FieldBegin(WireOf(fs[i].ty), fs[i].id)];
          WriteValue(fs[i].ty, slots[i].value);
          AppendField(before, FieldBegin(WireOf(fs[i].ty), fs[i].id), Write(fs[i].ty, slots[i].value), rest);
        }
        k := k + 1;
      }
      assert tokens + [] == tokens;
      Evolution.Assoc(old(tokens), WriteFields(fs, slots, order), [FieldStop]);
      tokens := tokens + [FieldStop];
    }

    method WriteElements(e: Type, elems: seq<Value>)
      requires ConformAll(e, elems)
      modifies this
      ensures tokens == old(tokens) + WriteAll(e, elems)
      decreases e, 2
    {
      var k := 0;
      while k < |elems|
        invariant 0 <= k <= |elems|
        invariant old(tokens) + WriteAll(e, elems) == tokens + WriteAll(e, elems[k..])
      {
        assert elems[k..][1..] == elems[k + 1..];
        Evolution.Assoc(tokens, Write(e, elems[k]), WriteAll(e, elems[k + 1..]));
        WriteValue(e, elems[k]);
        k := k + 1;
      }
      assert tokens + [] == tokens;
    }

    method WriteMap(k: Type, w: Type, entries: seq<Entry>)
      requires ConformEntries(k, w, entries)
      modifies this
      ensures tokens == old(tokens) + WriteEntries(k, w, entries)
      decreases Map(k, w), 0
    {
      var n := 0;
      while n < |entries|
        invariant 0 <= n <= |entries|
        invariant old(tokens) + WriteEntries(k, w, entries) == tokens + WriteEntries(k, w, entries[n..])
      {
        assert entries[n..][1..] == entries[n + 1..];
        AppendPair(tokens, Write(k, entries[n].key), Write(w, entries[n].val), WriteEntries(k, w, entries[n + 1..]));
        WriteValue(k, entries[n].key);
        WriteValue(w, entries[n].val);
        n := n + 1;
      }
      assert tokens + [] == tokens;
    }

    // ----- read -----

    /** The result says what the function Read says, and the stream is left where it says. */
    method ReadValue(lt: Less, ty: Type, cur: Value) returns (r: Result)
      modifies this
      ensures r == Read(lt, ty, cur, old(tokens))
      ensures r.Ok? ==> tokens == r.rest
      decreases |tokens|, 1
    {
      if tokens == [] {
        return Malformed;
      }
      var head := tokens[0];
      match ty {
        case Struct(fs) => r := ReadStruct(lt, fs, Current(fs, cur));
        case List(e) =>
          if !head.ListBegin? { return Malformed; }
          tokens := tokens[1..];
          r := ReadElements(lt, e, head.size, false);
        case Set(e) =>
          if !head.SetBegin? { return Malformed; }
          tokens := tokens[1..];
          r := ReadElements(lt, e, head.size, true);
        case Map(k, w) =>
          if !head.MapBegin? { return Malformed; }
          tokens := tokens[1..];
          r := ReadPairs(lt, k, w, head.size);
        case _ =>
          if !head.Data? || head.wire != WireOf(ty) { return Malformed; }
          tokens := tokens[1..];
          r := Ok(Scalar(head.datum), tokens);
      }
    }

    method ReadStruct(lt: Less, fs: seq<Field>, cur: seq<Slot>) returns (r: Result)
      requires |cur| == |fs|
      modifies this
      ensures r == ReadFields(lt, fs, cur, {}, old(tokens))
      ensures r.Ok? ==> tokens == r.rest
      decreases |tokens|, 0
    {
      var slots, got := cur, {};
      while true
        invariant |slots| == |fs| && |tokens| <= |old(tokens)|
        invariant ReadFields(lt, fs, slots, got, tokens) == ReadFields(lt, fs, cur, {}, old(tokens))
        decreases |tokens|
      {
        if tokens == [] || (!tokens[0].FieldStop? && !tokens[0].FieldBegin?) {
          return Malformed;
        }
        var head := tokens[0];
        tokens := tokens[1..];
        if head.FieldStop? {
          return if Complete(fs, got) then Ok(Record(slots), tokens) else Missing;
        }
        var target := FieldIndex(fs, head.id);
        if target.Some? && WireOf(fs[target.value].ty) == head.wire {
          var i := target.value;
          var field := ReadValue(lt, fs[i].ty, slots[i].value);
          if !field.Ok? {
            return field;
          }
          slots, got := slots[i := Slot(true, field.value)], got + {i};
        } else {
          var rest := Skip(head.wire, tokens);
          if rest.None? {
            return Malformed;
          }
          tokens := rest.value;
        }
      }
    }

    method ReadElements(lt: Less, e: Type, size: nat, asSet: bool) returns (r: Result)
      modifies this
      ensures r == if asSet then ReadSet(lt, e, size, [], old(tokens)) else ReadList(lt, e, size, [], old(tokens))
      ensures r.Ok? ==> tokens == r.rest
      decreases |tokens|, 2
    {
      var elems, i := [], 0;
      while i < size
        invariant 0 <= i <= size && |tokens| <= |old(tokens)|
        invariant asSet ==> ReadSet(lt, e, size - i, elems, tokens) == ReadSet(lt, e, size, [], old(tokens))
        invariant !asSet ==> ReadList(lt, e, size - i, elems, tokens) == ReadList(lt, e, size, [], old(tokens))
      {
        var elem := ReadValue(lt, e, Fresh(e));
        if !elem.Ok? {
          return elem;
        }
        elems := if asSet then Insert(lt, e, elems, elem.value) else elems + [elem.value];
        i := i + 1;
      }
      r := Ok(Elements(elems), tokens);
    }

    method ReadPairs(lt: Less, k: Type, w: Type, size: nat) returns (r: Result)
      modifies this
      ensures r == ReadMap(lt, k, w, size, [], old(tokens))
      ensures r.Ok? ==> tokens == r.rest
      decreases |tokens|, 2
    {
      var entries, i := [], 0;
      while i < size
        invariant 0 <= i <= size && |tokens| <= |old(tokens)|
        invariant ReadMap(lt, k, w, size - i, entries, tokens) == ReadMap(lt, k, w, size, [], old(tokens))
      {
        var key := ReadValue(lt, k, Fresh(k));
        if !key.Ok? {
          return key;
        }
        var val := ReadValue(lt, w, Lookup(lt, k, w, entries, key.value));
        if !val.Ok? {
          return val;
        }
        entries := Put(lt, k, entries, key.value, val.value);
        i := i + 1;
      }
      r := Ok(Entries(entries), tokens);
    }
  }

  lemma AppendField(ts: Tokens, h: Token, x: Tokens, rest: Tokens)
    ensures ts + ([h] + x + rest) == (ts + [h] + x) + rest
  {
  }

  lemma AppendPair(ts: Tokens, x: Tokens, y: Tokens, rest: Tokens)
    ensures ts + (x + (y + rest)) == (ts + x + y) + rest
  {
  }
}

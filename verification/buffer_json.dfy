/** The `bufferReplacer`/`bufferReviver` pair (identical copies in
    src/utils/whatsapp.js and src/models/authSessionsModel.js) and the two
    passes of `JSON.stringify` and `JSON.parse` that call them on every value.

    `JSON.stringify` calls a value's own `toJSON` before the replacer, so a
    Node `Buffer` reaches the replacer already as `{type: 'Buffer', data: [..]}`
    and only a bare `Uint8Array` takes the replacer's buffer branch. There
    `value.toString('base64')` is `Array.prototype.join`, which ignores its
    argument: the tag carries decimal text, not base64. */
module BufferJson {
  import opened Base
  import opened Json
  import Base64

  /** `{type: 'Buffer', data: data}`. */
  function Tagged(data: Value): (r: Value)
    ensures LooksTagged(r) && r.JObj?
    ensures Field(r, "data") == Some(data) && Field(r, "value") == None
  {
    JObj(map["type" := JStr("Buffer"), "data" := data])
  }

  /** `u8.toString()` for a `Uint8Array`: the decimal bytes joined by ','. */
  function DecimalJoin(b: Bytes): (s: string)
    ensures |s| == 0 <==> |b| == 0
    ensures forall i :: 0 <= i < |s| ==> IsDigit(s[i]) || s[i] == ','
  {
    if |b| == 0 then ""
    else if |b| == 1 then NatToString(b[0])
    else NatToString(b[0]) + "," + DecimalJoin(b[1..])
  }

  /** `bufferReplacer(key, value)` as written, called on one value. */
  function Replace(v: Value): (r: Value)
    ensures !v.JBuf? ==> r == v
    ensures v.JBuf? ==> LooksTagged(r) && Field(r, "data") == Some(JStr(if v.node then Base64.Encode(v.bytes) else DecimalJoin(v.bytes)))
  {
    match v
    case JBuf(b, node) => Tagged(JStr(if node then Base64.Encode(b) else DecimalJoin(b)))
    case _ => v
  }

  /** The replacer as evidently intended: base64 for every kind of buffer. */
  function ReplaceCorrected(v: Value): (r: Value)
    ensures !v.JBuf? ==> r == v
    ensures v.JBuf? ==> LooksTagged(r) && Field(r, "data") == Some(JStr(Base64.Encode(v.bytes)))
  {
    match v
    case JBuf(b, _) => Tagged(JStr(Base64.Encode(b)))
    case _ => v
  }

  /** ToUint8 of one array element, as `Buffer.from(array)` applies it. */
  function ToUint8(v: Value): (x: byte)
    ensures v.JNum? && 0 <= v.n < 256 ==> x == v.n
  {
    match v
    case JNum(n) => n % 256
    case JBool(b) => if b then 1 else 0
    case JStr(s) => if AllDigits(s) then DecimalValue(s) % 256 else 0
    case _ => 0
  }

  function FromArray(items: seq<Value>): (b: Bytes)
    ensures |b| == |items|
    ensures forall i :: 0 <= i < |b| ==> b[i] == ToUint8(items[i])
  {
    seq(|items|, i requires 0 <= i < |items| => ToUint8(items[i]))
  }

  /** The array `Buffer.toJSON` writes for the bytes. */
  function Numbers(b: Bytes): (items: seq<Value>)
    ensures |items| == |b|
    ensures forall i :: 0 <= i < |b| ==> items[i] == JNum(b[i])
  {
    seq(|b|, i requires 0 <= i < |b| => JNum(b[i]))
  }

  /** `Buffer.from(x)` for an argument that is not a string; None where it
      throws (a number, `true`, an object that is neither a buffer nor a
      serialized one). */
  function BufferFrom(x: Value): (r: Option<Bytes>)
    requires !x.JStr?
    ensures x.JArr? ==> r == Some(FromArray(x.items))
    ensures x.JBuf? ==> r == Some(x.bytes)
    ensures x.JNum? || x.JBool? ==> r == None
  {
    match x
    case JArr(items) => Some(FromArray(items))
    case JBuf(b, _) => Some(b)
    case JObj(_) =>
      var d := Field(x, "data");
      if Field(x, "type") == Some(JStr("Buffer")) && d.Some? && d.value.JArr? then Some(FromArray(d.value.items))
      else None
    case _ => None
  }

  /** `bufferReviver(key, value)` on one value: a tagged object becomes a
      Node `Buffer` from `value.data || value.value`, read as base64 when it is
      a string; None where `Buffer.from` throws. */
  function Revive(v: Value): (r: Option<Value>)
    ensures !LooksTagged(v) ==> r == Some(v)
    ensures LooksTagged(v) && r.Some? ==> r.value.JBuf? && r.value.node
  {
    if !LooksTagged(v) then Some(v)
    else
      var val := if TruthyField(v, "data") then Field(v, "data") else Field(v, "value");
      if val.Some? && val.value.JStr? then Some(JBuf(Base64.Decode(val.value.s), true))
      else
        var arg := if val.Some? && Truthy(val.value) then val.value else JArr([]);
        var b :- BufferFrom(arg);
        Some(JBuf(b, true))
  }

  /** Calling the reviver on what the replacer made of a Node `Buffer` gives
      the same bytes back, the empty buffer included: its tag carries "",
      which is falsy, so the reviver falls back to `Buffer.from([])`. */
  lemma ReplaceRevive(b: Bytes)
    ensures Revive(Replace(JBuf(b, true))) == Some(JBuf(b, true))
  {
    ReplaceCorrectedRevive(b, true);
  }

  /** The corrected replacer round-trips every kind of buffer. */
  lemma ReplaceCorrectedRevive(b: Bytes, node: bool)
    ensures Revive(ReplaceCorrected(JBuf(b, node))) == Some(JBuf(b, true))
  {
    Base64.RoundTrip(b);
    if |b| == 0 {
      assert FromArray([]) == [];
    }
  }

  /** Which replacer `JSON.stringify` is given. */
  datatype Replacer = NoReplacer | AsWritten | Corrected

  /** The object `JSON.stringify` writes for a bare `Uint8Array` without a
      replacer: its indices as keys. */
  function IndexObject(b: Bytes): (m: map<string, Value>)
    ensures |m| == |b|
    ensures forall k :: k in m ==> AllDigits(k) && DecimalValue(k) < |b| && m[k].JNum?
  {
    if |b| == 0 then map[]
    else
      var m := IndexObject(b[..|b| - 1]);
      DecimalRoundTrip(|b| - 1);
      m[NatToString(|b| - 1) := JNum(b[|b| - 1])]
  }

  /** `JSON.parse(JSON.stringify(v, replacer))`: the plain value the text
      denotes. A Node `Buffer` is written by its own `toJSON` before the
      replacer sees it. */
  function Stringified(r: Replacer, v: Value): (p: Value)
    ensures IsPlain(p)
  {
    match v
    case JBuf(b, true) => Tagged(JArr(Numbers(b)))
    case JBuf(b, false) =>
      (match r
       case NoReplacer => JObj(IndexObject(b))
       case AsWritten => Replace(v)
       case Corrected => ReplaceCorrected(v))
    case JArr(items) => JArr(seq(|items|, i requires 0 <= i < |items| => Stringified(r, items[i])))
    case JObj(fields) => JObj(map k | k in fields :: Stringified(r, fields[k]))
    case _ => v
  }

  /** `JSON.parse(text, bufferReviver)` on the value the text denotes: the
      reviver runs on every value bottom-up, children first; any throw
      aborts the parse. */
  function ReviveAll(v: Value): (r: Option<Value>)
  {
    match v
    case JArr(items) =>
      var rs := seq(|items|, i requires 0 <= i < |items| => ReviveAll(items[i]));
      if forall i :: 0 <= i < |rs| ==> rs[i].Some? then
        Revive(JArr(seq(|rs|, i requires 0 <= i < |rs| => rs[i].GetOr(JNull))))
      else None
    case JObj(fields) =>
      var rf := map k | k in fields :: ReviveAll(fields[k]);
      if forall k :: k in rf ==> rf[k].Some? then
        Revive(JObj(map k | k in rf :: rf[k].GetOr(JNull)))
      else None
    case _ => Revive(v)
  }

  /** A plain value is written and read back as itself, by every replacer. */
  lemma {:induction false} StringifiedPlain(r: Replacer, v: Value)
    requires IsPlain(v)
    ensures Stringified(r, v) == v
  {
    match v
    case JArr(items) =>
      forall i | 0 <= i < |items| {
        StringifiedPlain(r, items[i]);
      }
      assert Stringified(r, v).items == items;
    case JObj(fields) =>
      forall k | k in fields {
        StringifiedPlain(r, fields[k]);
      }
      assert Stringified(r, v).fields == fields;
    case _ =>
  }

  /** On values whose buffers are all Node buffers the replacer never fires,
      so the code as written and the corrected replacer write the same. */
  lemma {:induction false} NodeBuffersIgnoreReplacer(r: Replacer, v: Value)
    requires NodeBuffersOnly(v)
    ensures Stringified(r, v) == Stringified(Corrected, v)
  {
    match v
    case JArr(items) =>
      forall i | 0 <= i < |items|
        ensures Stringified(r, items[i]) == Stringified(Corrected, items[i])
      {
        NodeBuffersIgnoreReplacer(r, items[i]);
      }
      SameItems(r, items);
    case JObj(fields) =>
      forall k | k in fields
        ensures Stringified(r, fields[k]) == Stringified(Corrected, fields[k])
      {
        NodeBuffersIgnoreReplacer(r, fields[k]);
      }
      SameFields(r, fields);
    case _ =>
  }

  /** An array is written alike by two replacers that write its items alike. */
  lemma SameItems(r: Replacer, items: seq<Value>)
    requires forall i :: 0 <= i < |items| ==> Stringified(r, items[i]) == Stringified(Corrected, items[i])
    ensures Stringified(r, JArr(items)) == Stringified(Corrected, JArr(items))
  {
    assert Stringified(r, JArr(items)).items == Stringified(Corrected, JArr(items)).items;
  }

  /** An object is written alike by two replacers that write its fields alike. */
  lemma SameFields(r: Replacer, fields: map<string, Value>)
    requires forall k :: k in fields ==> Stringified(r, fields[k]) == Stringified(Corrected, fields[k])
    ensures Stringified(r, JObj(fields)) == Stringified(Corrected, JObj(fields))
  {
    assert Stringified(r, JObj(fields)).fields == Stringified(Corrected, JObj(fields)).fields;
  }

  /** Reviving the array `toJSON` wrote gives the bytes back. */
  lemma ReviveNumbers(b: Bytes)
    ensures ReviveAll(JArr(Numbers(b))) == Some(JArr(Numbers(b)))
    ensures FromArray(Numbers(b)) == b
  {
    var items := Numbers(b);
    var rs := seq(|items|, i requires 0 <= i < |items| => ReviveAll(items[i]));
    assert forall i :: 0 <= i < |rs| ==> rs[i] == Some(items[i]);
    assert seq(|rs|, i requires 0 <= i < |rs| => rs[i].GetOr(JNull)) == items;
  }

  /** Reviving a two-field tag whose fields revive to themselves. */
  lemma ReviveTagged(data: Value)
    requires ReviveAll(data) == Some(data)
    ensures ReviveAll(Tagged(data)) == Revive(Tagged(data))
  {
    var fields := Tagged(data).fields;
    assert fields.Keys == {"type", "data"};
    assert ReviveAll(fields["type"]) == Some(fields["type"]);
    assert ReviveAll(fields["data"]) == Some(fields["data"]);
    ReviveFixedFields(fields);
  }

  /** An object whose fields each revive to themselves is handed to the
      reviver as it is. */
  lemma ReviveFixedFields(fields: map<string, Value>)
    requires forall k :: k in fields ==> ReviveAll(fields[k]) == Some(fields[k])
    ensures ReviveAll(JObj(fields)) == Revive(JObj(fields))
  {
    var rf := map k | k in fields :: ReviveAll(fields[k]);
    assert (map k | k in rf :: rf[k].GetOr(JNull)) == fields;
  }

  /** An object whose fields each revive, and which does not itself look
      tagged afterwards, revives to the object of the revived fields. */
  lemma ReviveObject(fields: map<string, Value>, revived: map<string, Value>)
    requires fields.Keys == revived.Keys
    requires forall k :: k in fields ==> ReviveAll(fields[k]) == Some(revived[k])
    requires !LooksTagged(JObj(revived))
    ensures ReviveAll(JObj(fields)) == Some(JObj(revived))
  {
    var rf := map k | k in fields :: ReviveAll(fields[k]);
    assert (map k | k in rf :: rf[k].GetOr(JNull)) == revived;
  }

  /** A Node `Buffer` written by its `toJSON` is read back with the same bytes. */
  lemma NodeBufferRoundTrip(b: Bytes)
    ensures ReviveAll(Stringified(Corrected, JBuf(b, true))) == Some(JBuf(b, true))
  {
    ReviveNumbers(b);
    ReviveTagged(JArr(Numbers(b)));
  }

  /** A bare `Uint8Array` written with the corrected replacer is read back
      as a Node `Buffer` with the same bytes. */
  lemma Uint8ArrayRoundTrip(b: Bytes)
    ensures ReviveAll(Stringified(Corrected, JBuf(b, false))) == Some(JBuf(b, true))
  {
    var t := Tagged(JStr(Base64.Encode(b)));
    StringifiedBare(b);
    assert Stringified(Corrected, JBuf(b, false)) == t;
    ReviveTaggedText(Base64.Encode(b));
    ReplaceCorrectedRevive(b, false);
  }

  /** What `JSON.stringify` makes of a bare `Uint8Array` under each replacer. */
  lemma StringifiedBare(b: Bytes)
    ensures Stringified(AsWritten, JBuf(b, false)) == Replace(JBuf(b, false))
    ensures Stringified(Corrected, JBuf(b, false)) == ReplaceCorrected(JBuf(b, false))
  {
  }

  /** A tag whose data is a string revives in one step. */
  lemma ReviveTaggedText(s: string)
    ensures ReviveAll(Tagged(JStr(s))) == Revive(Tagged(JStr(s)))
  {
    assert ReviveAll(JStr(s)) == Some(JStr(s));
    ReviveTagged(JStr(s));
  }

  lemma BufferRoundTrip(b: Bytes, node: bool)
    ensures ReviveAll(Stringified(Corrected, JBuf(b, node))) == Some(JBuf(b, true))
  {
    if node {
      NodeBufferRoundTrip(b);
    } else {
      Uint8ArrayRoundTrip(b);
    }
  }

  /** `JSON.parse(JSON.stringify(v, replacer), bufferReviver)` gives back v
      under any replacer, the one in the code included, for every value whose
      buffers are all Node `Buffer`s and in which no object already looks
      like a tagged buffer. */
  lemma RoundTrip(r: Replacer, v: Value)
    requires TagFree(v) && NodeBuffersOnly(v)
    ensures ReviveAll(Stringified(r, v)) == Some(v)
  {
    NodeBuffersIgnoreReplacer(r, v);
    CorrectedRoundTrip(v);
    AsNodeIdentity(v);
  }

  /** What the code as written reads back for v: a Node `Buffer` as it is,
      a bare `Uint8Array` as the base64 decoding of its decimal join, every
      buffer now a Node `Buffer`. */
  function AsRead(v: Value): (r: Value)
    ensures NodeBuffersOnly(r)
    ensures r.JArr? == v.JArr? && r.JObj? == v.JObj? && r.JBuf? == v.JBuf?
    ensures !v.JArr? && !v.JObj? && !v.JBuf? ==> r == v
    ensures v.JBuf? ==> r.bytes == if v.node then v.bytes else Base64.Decode(DecimalJoin(v.bytes))
    ensures v.JArr? ==> |r.items| == |v.items|
    ensures v.JObj? ==> r.fields.Keys == v.fields.Keys
  {
    match v
    case JBuf(b, node) => JBuf(if node then b else Base64.Decode(DecimalJoin(b)), true)
    case JArr(items) => JArr(seq(|items|, i requires 0 <= i < |items| => AsRead(items[i])))
    case JObj(fields) => JObj(map k | k in fields :: AsRead(fields[k]))
    case _ => v
  }

  /** A value made of Node buffers only is read back as it is. */
  lemma {:induction false} AsReadIdentity(v: Value)
    requires NodeBuffersOnly(v)
    ensures AsRead(v) == v
  {
    match v
    case JArr(items) =>
      forall i | 0 <= i < |items| {
        AsReadIdentity(items[i]);
      }
      assert AsRead(v).items == items;
    case JObj(fields) =>
      forall k | k in fields {
        AsReadIdentity(fields[k]);
      }
      assert AsRead(v).fields == fields;
    case _ =>
  }

  /** Reading buffers back does not change whether an object looks tagged. */
  lemma AsReadTagged(v: Value)
    requires v.JObj?
    ensures LooksTagged(AsRead(v)) <==> LooksTagged(v)
  {
    var r := AsRead(v);
    if "buffer" in v.fields {
      assert r.fields["buffer"] == AsRead(v.fields["buffer"]);
    }
    if "type" in v.fields {
      assert r.fields["type"] == AsRead(v.fields["type"]);
    }
  }

  /** Reading buffers back keeps a value free of tags. */
  lemma {:induction false} AsReadTagFree(v: Value)
    requires TagFree(v)
    ensures TagFree(AsRead(v))
  {
    match v
    case JArr(items) =>
      forall i | 0 <= i < |items| {
        AsReadTagFree(items[i]);
      }
    case JObj(fields) =>
      forall k | k in fields {
        AsReadTagFree(fields[k]);
      }
      AsReadTagged(v);
    case _ =>
  }

  /** `JSON.parse(JSON.stringify(v, bufferReplacer), bufferReviver)` with the
      replacer as written: every value in which no object already looks like
      a tagged buffer comes back as `AsRead(v)`. */
  lemma {:induction false} AsWrittenRoundTrip(v: Value)
    requires TagFree(v)
    ensures ReviveAll(Stringified(AsWritten, v)) == Some(AsRead(v))
  {
    match v
    case JBuf(b, node) =>
      if node {
        assert Stringified(AsWritten, v) == Stringified(Corrected, v);
        NodeBufferRoundTrip(b);
      } else {
        BareRead(b);
      }
    case JArr(items) =>
      forall i | 0 <= i < |items|
        ensures ReviveAll(Stringified(AsWritten, items[i])) == Some(AsRead(items[i]))
      {
        AsWrittenRoundTrip(items[i]);
      }
      WrittenItems(items);
    case JObj(fields) =>
      forall k | k in fields
        ensures ReviveAll(Stringified(AsWritten, fields[k])) == Some(AsRead(fields[k]))
      {
        AsWrittenRoundTrip(fields[k]);
      }
      WrittenFields(v);
    case _ =>
  }

  /** A bare `Uint8Array` is read back as the base64 decoding of its decimal
      join; the empty one as the empty buffer, through `Buffer.from([])`. */
  lemma BareRead(b: Bytes)
    ensures ReviveAll(Stringified(AsWritten, JBuf(b, false))) == Some(JBuf(Base64.Decode(DecimalJoin(b)), true))
  {
    StringifiedBare(b);
    ReadTaggedText(DecimalJoin(b));
  }

  /** A tag carrying any text is read as the base64 decoding of the text. */
  lemma ReadTaggedText(text: string)
    ensures ReviveAll(Tagged(JStr(text))) == Some(JBuf(Base64.Decode(text), true))
  {
    ReviveTaggedText(text);
    if text == "" {
      Base64.DecodeNoSextets("");
      assert FromArray([]) == [];
    } else {
      ReviveNonEmptyText(text);
    }
  }

  /** An array is read back as written when each of its items is. */
  lemma WrittenItems(items: seq<Value>)
    requires forall i :: 0 <= i < |items| ==> ReviveAll(Stringified(AsWritten, items[i])) == Some(AsRead(items[i]))
    ensures ReviveAll(Stringified(AsWritten, JArr(items))) == Some(AsRead(JArr(items)))
  {
    var p := Stringified(AsWritten, JArr(items));
    assert |p.items| == |items|;
    assert forall i :: 0 <= i < |items| ==> p.items[i] == Stringified(AsWritten, items[i]);
    var rs := seq(|p.items|, i requires 0 <= i < |p.items| => ReviveAll(p.items[i]));
    assert forall i :: 0 <= i < |rs| ==> rs[i] == Some(AsRead(items[i]));
    assert seq(|rs|, i requires 0 <= i < |rs| => rs[i].GetOr(JNull)) == AsRead(JArr(items)).items;
  }

  /** An object that does not look tagged is read back as written when each
      of its fields is. */
  lemma WrittenFields(v: Value)
    requires v.JObj? && !LooksTagged(v)
    requires forall k :: k in v.fields ==> ReviveAll(Stringified(AsWritten, v.fields[k])) == Some(AsRead(v.fields[k]))
    ensures ReviveAll(Stringified(AsWritten, v)) == Some(AsRead(v))
  {
    var p := Stringified(AsWritten, v);
    var n := AsRead(v);
    assert p.fields.Keys == v.fields.Keys == n.fields.Keys;
    assert forall k :: k in v.fields ==> p.fields[k] == Stringified(AsWritten, v.fields[k]) && n.fields[k] == AsRead(v.fields[k]);
    AsReadTagged(v);
    ReviveObject(p.fields, n.fields);
  }

  /** With the corrected replacer the round trip holds for every value in
      which no object already looks like a tagged buffer, every buffer
      coming back as a Node `Buffer`. */
  lemma {:induction false} CorrectedRoundTrip(v: Value)
    requires TagFree(v)
    ensures ReviveAll(Stringified(Corrected, v)) == Some(AsNode(v))
  {
    match v
    case JBuf(b, node) =>
      BufferRoundTrip(b, node);
    case JArr(items) =>
      forall i | 0 <= i < |items|
        ensures ReviveAll(Stringified(Corrected, items[i])) == Some(AsNode(items[i]))
      {
        CorrectedRoundTrip(items[i]);
      }
      ItemsRoundTrip(items);
    case JObj(fields) =>
      forall k | k in fields
        ensures ReviveAll(Stringified(Corrected, fields[k])) == Some(AsNode(fields[k]))
      {
        CorrectedRoundTrip(fields[k]);
      }
      FieldsRoundTrip(v);
    case _ =>
  }

  /** An array round-trips when each of its items does. */
  lemma ItemsRoundTrip(items: seq<Value>)
    requires forall i :: 0 <= i < |items| ==> ReviveAll(Stringified(Corrected, items[i])) == Some(AsNode(items[i]))
    ensures ReviveAll(Stringified(Corrected, JArr(items))) == Some(AsNode(JArr(items)))
  {
    var p := Stringified(Corrected, JArr(items));
    assert |p.items| == |items|;
    assert forall i :: 0 <= i < |items| ==> p.items[i] == Stringified(Corrected, items[i]);
    var rs := seq(|p.items|, i requires 0 <= i < |p.items| => ReviveAll(p.items[i]));
    assert forall i :: 0 <= i < |rs| ==> rs[i] == Some(AsNode(items[i]));
    assert seq(|rs|, i requires 0 <= i < |rs| => rs[i].GetOr(JNull)) == AsNode(JArr(items)).items;
  }

  /** An object that does not look tagged round-trips when each of its
      fields does. */
  lemma FieldsRoundTrip(v: Value)
    requires v.JObj? && !LooksTagged(v)
    requires forall k :: k in v.fields ==> ReviveAll(Stringified(Corrected, v.fields[k])) == Some(AsNode(v.fields[k]))
    ensures ReviveAll(Stringified(Corrected, v)) == Some(AsNode(v))
  {
    var p := Stringified(Corrected, v);
    var n := AsNode(v);
    assert p.fields.Keys == v.fields.Keys == n.fields.Keys;
    assert forall k :: k in v.fields ==> p.fields[k] == Stringified(Corrected, v.fields[k]) && n.fields[k] == AsNode(v.fields[k]);
    AsNodeTagged(v);
    ReviveObject(p.fields, n.fields);
  }

  /** The deep copy `JSON.parse(JSON.stringify(x), bufferReviver)` that
      restores a saved auth state is the identity on values built from Node
      buffers. */
  lemma DeepCopyIdentity(v: Value)
    requires TagFree(v) && NodeBuffersOnly(v)
    ensures ReviveAll(Stringified(NoReplacer, v)) == Some(v)
  {
    RoundTrip(NoReplacer, v);
  }

  /** The replacer as written loses a bare `Uint8Array`: [5] is written as
      the tag `{type: 'Buffer', data: "5"}`, and "5" is a single sextet,
      which base64 decoding drops. */
  lemma Uint8ArrayLost()
    ensures ReviveAll(Stringified(AsWritten, JBuf([5], false))) == Some(JBuf([], true))
  {
    StringifiedBare([5]);
    FiveJoined();
    assert Replace(JBuf([5], false)) == Tagged(JStr("5"));
    ReviveTaggedText("5");
    ReviveNonEmptyText("5");
    FiveDecodesEmpty();
  }

  /** The same loss inside an object: `{key: Uint8Array [5]}` comes back
      as `{key: <empty Buffer>}`. */
  lemma Uint8ArrayFieldLost()
    ensures ReviveAll(Stringified(AsWritten, JObj(map["key" := JBuf([5], false)])))
         == Some(JObj(map["key" := JBuf([], true)]))
  {
    var fields := map["key" := JBuf([5], false)];
    var written := map["key" := Stringified(AsWritten, JBuf([5], false))];
    assert Stringified(AsWritten, JObj(fields)) == JObj(written);
    var revived := map["key" := JBuf([], true)];
    Uint8ArrayLost();
    assert Field(JObj(revived), "buffer") == None && Field(JObj(revived), "type") == None;
    ReviveObject(written, revived);
  }

  lemma FiveJoined()
    ensures DecimalJoin([5]) == "5"
  {
    assert NatToString(5) == "5";
  }

  /** A tag carrying a non-empty string is read as base64. */
  lemma ReviveNonEmptyText(s: string)
    requires s != ""
    ensures Revive(Tagged(JStr(s))) == Some(JBuf(Base64.Decode(s), true))
  {
    assert TruthyField(Tagged(JStr(s)), "data");
  }

  /** "5" is a single sextet, too short for a byte. */
  lemma FiveDecodesEmpty()
    ensures Base64.Decode("5") == []
  {
    assert Base64.Sextets("5"[1..]) == [];
    assert Base64.Sextets("5") == [57];
  }
}

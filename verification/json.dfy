/** JavaScript values as they pass through `JSON.stringify` and `JSON.parse`:
    the JSON kinds plus byte buffers. Object field order is not modelled. */
module Json {
  import opened Base

  /** `node` tells a Node `Buffer` (which has a `toJSON` method) from a bare
      `Uint8Array` (which has none). */
  datatype Value =
    | JNull
    | JBool(b: bool)
    | JNum(n: int)
    | JStr(s: string)
    | JArr(items: seq<Value>)
    | JObj(fields: map<string, Value>)
    | JBuf(bytes: Bytes, node: bool)

  /** JavaScript truthiness; every object, array and buffer is truthy. */
  predicate Truthy(v: Value) {
    match v
    case JNull => false
    case JBool(b) => b
    case JNum(n) => n != 0
    case JStr(s) => |s| > 0
    case _ => true
  }

  /** `v[name]` on an object; None stands for `undefined`. */
  function Field(v: Value, name: string): (r: Option<Value>)
    ensures r.Some? <==> v.JObj? && name in v.fields
    ensures r.Some? ==> r.value == v.fields[name]
  {
    if v.JObj? && name in v.fields then Some(v.fields[name]) else None
  }

  predicate TruthyField(v: Value, name: string) {
    var f := Field(v, name);
    f.Some? && Truthy(f.value)
  }

  /** The reviver's test: an object whose `buffer` is `true` or whose `type`
      is the string "Buffer". */
  predicate LooksTagged(v: Value) {
    Field(v, "buffer") == Some(JBool(true)) || Field(v, "type") == Some(JStr("Buffer"))
  }

  /** What `JSON.parse` can produce: no buffers anywhere. */
  predicate IsPlain(v: Value) {
    match v
    case JBuf(_, _) => false
    case JArr(items) => forall i :: 0 <= i < |items| ==> IsPlain(items[i])
    case JObj(fields) => forall k :: k in fields ==> IsPlain(fields[k])
    case _ => true
  }

  /** No object anywhere that the reviver would take for a tagged buffer. */
  predicate TagFree(v: Value) {
    match v
    case JArr(items) => forall i :: 0 <= i < |items| ==> TagFree(items[i])
    case JObj(fields) => !LooksTagged(v) && forall k :: k in fields ==> TagFree(fields[k])
    case _ => true
  }

  /** Every buffer inside is a Node `Buffer`. */
  predicate NodeBuffersOnly(v: Value) {
    match v
    case JBuf(_, node) => node
    case JArr(items) => forall i :: 0 <= i < |items| ==> NodeBuffersOnly(items[i])
    case JObj(fields) => forall k :: k in fields ==> NodeBuffersOnly(fields[k])
    case _ => true
  }

  /** The value with every buffer replaced by a Node `Buffer` holding the
      same bytes. */
  function AsNode(v: Value): (r: Value)
    ensures NodeBuffersOnly(r)
    ensures r.JNull? == v.JNull? && r.JBool? == v.JBool? && r.JNum? == v.JNum?
    ensures r.JStr? == v.JStr? && r.JArr? == v.JArr? && r.JObj? == v.JObj? && r.JBuf? == v.JBuf?
    ensures !v.JArr? && !v.JObj? && !v.JBuf? ==> r == v
    ensures v.JBuf? ==> r.bytes == v.bytes
    ensures v.JArr? ==> |r.items| == |v.items|
    ensures v.JObj? ==> r.fields.Keys == v.fields.Keys
  {
    match v
    case JBuf(b, _) => JBuf(b, true)
    case JArr(items) => JArr(seq(|items|, i requires 0 <= i < |items| => AsNode(items[i])))
    case JObj(fields) => JObj(map k | k in fields :: AsNode(fields[k]))
    case _ => v
  }

  /** A value made of Node buffers only is left as it is. */
  lemma {:induction false} AsNodeIdentity(v: Value)
    requires NodeBuffersOnly(v)
    ensures AsNode(v) == v
  {
    match v
    case JArr(items) =>
      forall i | 0 <= i < |items| {
        AsNodeIdentity(items[i]);
      }
      assert AsNode(v).items == items;
    case JObj(fields) =>
      forall k | k in fields {
        AsNodeIdentity(fields[k]);
      }
      assert AsNode(v).fields == fields;
    case _ =>
  }

  /** Turning buffers into Node buffers does not change whether an object
      looks tagged. */
  lemma AsNodeTagged(v: Value)
    requires v.JObj?
    ensures LooksTagged(AsNode(v)) <==> LooksTagged(v)
  {
    var r := AsNode(v);
    if "buffer" in v.fields {
      assert r.fields["buffer"] == AsNode(v.fields["buffer"]);
    }
    if "type" in v.fields {
      assert r.fields["type"] == AsNode(v.fields["type"]);
    }
  }

  /** Turning buffers into Node buffers keeps a value free of tags. */
  lemma {:induction false} AsNodeTagFree(v: Value)
    requires TagFree(v)
    ensures TagFree(AsNode(v))
  {
    match v
    case JArr(items) =>
      forall i | 0 <= i < |items| {
        AsNodeTagFree(items[i]);
      }
    case JObj(fields) =>
      forall k | k in fields {
        AsNodeTagFree(fields[k]);
      }
      AsNodeTagged(v);
    case _ =>
  }
}

/** Byte arrays on their way through message channels (`utils/bytes.ts`). */
module Transport {
  import opened ByteTypes
  import opened Decimals

  /** A plain JavaScript value. The fields of an object are in the order of `Object.entries`; numbers that are not
      finite stand apart. */
  datatype Value =
    | Undefined | Null | Bool(b: bool) | Num(n: real) | NotFinite(name: string) | Str(s: string)
    | ByteArray(bytes: Bytes) | Arr(items: seq<Value>) | Obj(fields: seq<(string, Value)>)

  predicate InByteRange(v: Value) {
    v.Num? && 0.0 <= v.n <= 255.0
  }

  /** What `new Uint8Array([n])` makes of a number in byte range. */
  function ByteOf(v: Value): Byte
    requires InByteRange(v)
  {
    v.n.Floor
  }

  /** `data.length > 0 && data.every(...)`. */
  predicate LooksLikeBytes(items: seq<Value>) {
    items != [] && forall i :: 0 <= i < |items| ==> InByteRange(items[i])
  }

  /** `looksLikeSerializedUint8Array`: the keys are "0", "1", and so on. */
  predicate LooksLikeSerializedBytes(fields: seq<(string, Value)>) {
    fields != [] && forall i :: 0 <= i < |fields| ==> fields[i].0 == Digits(i) && InByteRange(fields[i].1)
  }

  function Numbers(bytes: Bytes): (items: seq<Value>)
    ensures |items| == |bytes|
    ensures forall i :: 0 <= i < |items| ==> InByteRange(items[i])
  {
    seq(|bytes|, i requires 0 <= i < |bytes| => Num(bytes[i] as real))
  }

  function BytesOf(items: seq<Value>): (bytes: Bytes)
    requires forall i :: 0 <= i < |items| ==> InByteRange(items[i])
    ensures |bytes| == |items|
  {
    seq(|items|, i requires 0 <= i < |items| => ByteOf(items[i]))
  }

  lemma BytesOfNumbers(bytes: Bytes)
    ensures BytesOf(Numbers(bytes)) == bytes
  {
  }

  function FieldValues(fields: seq<(string, Value)>): (items: seq<Value>)
    ensures |items| == |fields|
  {
    seq(|fields|, i requires 0 <= i < |fields| => fields[i].1)
  }

  // ---------------------------------------------------------------- what the functions compute

  function Serialized(v: Value): Value {
    match v
    case ByteArray(bytes) => Arr(Numbers(bytes))
    case Arr(items) => Arr(seq(|items|, i requires 0 <= i < |items| => Serialized(items[i])))
    case Obj(fields) => Obj(seq(|fields|, i requires 0 <= i < |fields| => (fields[i].0, Serialized(fields[i].1))))
    case _ => v
  }

  function FromJson(v: Value): Value {
    match v
    case Arr(items) =>
      if LooksLikeBytes(items) then ByteArray(BytesOf(items))
      else Arr(seq(|items|, i requires 0 <= i < |items| => FromJson(items[i])))
    case Obj(fields) => Obj(seq(|fields|, i requires 0 <= i < |fields| => (fields[i].0, FromJson(fields[i].1))))
    case _ => v
  }

  function FromChrome(v: Value): Value {
    match v
    case Arr(items) => Arr(seq(|items|, i requires 0 <= i < |items| => FromChrome(items[i])))
    case Obj(fields) =>
      if LooksLikeSerializedBytes(fields) then ByteArray(BytesOf(FieldValues(fields)))
      else Obj(seq(|fields|, i requires 0 <= i < |fields| => (fields[i].0, FromChrome(fields[i].1))))
    case _ => v
  }

  /** What Chrome's message channel makes of a value: byte arrays arrive as objects with numeric keys. */
  function ThroughChrome(v: Value): Value {
    match v
    case ByteArray(bytes) => Obj(seq(|bytes|, i requires 0 <= i < |bytes| => (Digits(i), Num(bytes[i] as real))))
    case Arr(items) => Arr(seq(|items|, i requires 0 <= i < |items| => ThroughChrome(items[i])))
    case Obj(fields) => Obj(seq(|fields|, i requires 0 <= i < |fields| => (fields[i].0, ThroughChrome(fields[i].1))))
    case _ => v
  }

  // ---------------------------------------------------------------- the functions of the source

  /** `serializeForTransport`. */
  method SerializeForTransport(v: Value) returns (r: Value)
    ensures r == Serialized(v)
    decreases v
  {
    match v
    case ByteArray(bytes) => r := Arr(Numbers(bytes));
    case Arr(items) =>
      var serialized: seq<Value> := [];
      for i := 0 to |items|
        invariant serialized == Serialized(v).items[..i]
      {
        var item := SerializeForTransport(items[i]);
        serialized := serialized + [item];
      }
      r := Arr(serialized);
    case Obj(fields) =>
      var serialized: seq<(string, Value)> := [];
      for i := 0 to |fields|
        invariant serialized == Serialized(v).fields[..i]
      {
        var value := SerializeForTransport(fields[i].1);
        serialized := serialized + [(fields[i].0, value)];
      }
      r := Obj(serialized);
    case _ => r := v;
  }

  /** `normalizeByteArraysFromJson`. */
  method NormalizeByteArraysFromJson(v: Value) returns (r: Value)
    ensures r == FromJson(v)
    decreases v
  {
    match v
    case Arr(items) =>
      if LooksLikeBytes(items) {
        return ByteArray(BytesOf(items));
      }
      var normalized: seq<Value> := [];
      for i := 0 to |items|
        invariant normalized == FromJson(v).items[..i]
      {
        var item := NormalizeByteArraysFromJson(items[i]);
        normalized := normalized + [item];
      }
      r := Arr(normalized);
    case Obj(fields) =>
      var normalized: seq<(string, Value)> := [];
      for i := 0 to |fields|
        invariant normalized == FromJson(v).fields[..i]
      {
        var value := NormalizeByteArraysFromJson(fields[i].1);
        normalized := normalized + [(fields[i].0, value)];
      }
      r := Obj(normalized);
    case _ => r := v;
  }

  /** `normalizeUint8Arrays`. */
  method NormalizeUint8Arrays(v: Value) returns (r: Value)
    ensures r == FromChrome(v)
    decreases v
  {
    match v
    case Arr(items) =>
      var normalized: seq<Value> := [];
      for i := 0 to |items|
        invariant normalized == FromChrome(v).items[..i]
      {
        var item := NormalizeUint8Arrays(items[i]);
        normalized := normalized + [item];
      }
      r := Arr(normalized);
    case Obj(fields) =>
      if LooksLikeSerializedBytes(fields) {
        return ByteArray(BytesOf(FieldValues(fields)));
      }
      var normalized: seq<(string, Value)> := [];
      for i := 0 to |fields|
        invariant normalized == FromChrome(v).fields[..i]
      {
        var value := NormalizeUint8Arrays(fields[i].1);
        normalized := normalized + [(fields[i].0, value)];
      }
      r := Obj(normalized);
    case _ => r := v;
  }

  // ---------------------------------------------------------------- no byte arrays are left

  predicate NoByteArrays(v: Value) {
    match v
    case ByteArray(_) => false
    case Arr(items) => forall i :: 0 <= i < |items| ==> NoByteArrays(items[i])
    case Obj(fields) => forall i :: 0 <= i < |fields| ==> NoByteArrays(fields[i].1)
    case _ => true
  }

  lemma {:induction false} SerializingRemovesByteArrays(v: Value)
    ensures NoByteArrays(Serialized(v))
  {
    match v
    case Arr(items) =>
      forall i | 0 <= i < |items|
        ensures NoByteArrays(Serialized(v).items[i])
      {
        SerializingRemovesByteArrays(items[i]);
      }
    case Obj(fields) =>
      forall i | 0 <= i < |fields|
        ensures NoByteArrays(Serialized(v).fields[i].1)
      {
        SerializingRemovesByteArrays(fields[i].1);
      }
    case _ =>
  }

  /** Values without byte arrays are sent as they are, so serializing twice is serializing once. */
  lemma {:induction false} SerializingKeepsPlainValues(v: Value)
    ensures Serialized(v) == v <==> NoByteArrays(v)
  {
    match v
    case Arr(items) =>
      forall i | 0 <= i < |items|
        ensures Serialized(v).items[i] == items[i] <==> NoByteArrays(items[i])
      {
        SerializingKeepsPlainValues(items[i]);
      }
      assert Serialized(v) == v <==> forall i :: 0 <= i < |items| ==> Serialized(v).items[i] == items[i];
    case Obj(fields) =>
      forall i | 0 <= i < |fields|
        ensures Serialized(v).fields[i] == fields[i] <==> NoByteArrays(fields[i].1)
      {
        SerializingKeepsPlainValues(fields[i].1);
      }
      assert Serialized(v) == v <==> forall i :: 0 <= i < |fields| ==> Serialized(v).fields[i] == fields[i];
    case _ =>
  }

  lemma SerializingIsIdempotent(v: Value)
    ensures Serialized(Serialized(v)) == Serialized(v)
  {
    SerializingRemovesByteArrays(v);
    SerializingKeepsPlainValues(Serialized(v));
  }

  // ---------------------------------------------------------------- through JSON and back

  /** No byte array is empty, and no plain array could be taken for one. */
  predicate JsonSafe(v: Value) {
    match v
    case ByteArray(bytes) => bytes != []
    case Arr(items) => !LooksLikeBytes(items) && forall i :: 0 <= i < |items| ==> JsonSafe(items[i])
    case Obj(fields) => forall i :: 0 <= i < |fields| ==> JsonSafe(fields[i].1)
    case _ => true
  }

  /** None of the functions makes a number, changes one, or makes something else of it. */
  lemma NumbersStay(v: Value)
    ensures InByteRange(Serialized(v)) <==> InByteRange(v)
    ensures InByteRange(FromJson(v)) <==> InByteRange(v)
    ensures InByteRange(FromChrome(v)) <==> InByteRange(v)
    ensures InByteRange(ThroughChrome(v)) <==> InByteRange(v)
  {
  }

  lemma SerializedNumbers(items: seq<Value>)
    ensures LooksLikeBytes(Serialized(Arr(items)).items) <==> LooksLikeBytes(items)
  {
    var serialized := Serialized(Arr(items)).items;
    forall i | 0 <= i < |items|
      ensures InByteRange(serialized[i]) <==> InByteRange(items[i])
    {
      NumbersStay(items[i]);
    }
  }

  /** Normalising undoes serializing exactly for the values that are safe. */
  lemma {:induction false} JsonRoundTripIff(v: Value)
    ensures FromJson(Serialized(v)) == v <==> JsonSafe(v)
  {
    match v
    case ByteArray(bytes) => BytesOfNumbers(bytes);
    case Arr(items) =>
      SerializedNumbers(items);
      if !LooksLikeBytes(items) {
        var back := FromJson(Serialized(v));
        forall i | 0 <= i < |items|
          ensures back.items[i] == items[i] <==> JsonSafe(items[i])
        {
          JsonRoundTripIff(items[i]);
        }
        assert back == v <==> forall i :: 0 <= i < |items| ==> back.items[i] == items[i];
      }
    case Obj(fields) =>
      var back := FromJson(Serialized(v));
      forall i | 0 <= i < |fields|
        ensures back.fields[i] == fields[i] <==> JsonSafe(fields[i].1)
      {
        JsonRoundTripIff(fields[i].1);
      }
      assert back == v <==> forall i :: 0 <= i < |fields| ==> back.fields[i] == fields[i];
    case _ =>
  }

  lemma {:induction false} NormalisingJsonIsIdempotent(v: Value)
    ensures FromJson(FromJson(v)) == FromJson(v)
  {
    match v
    case Arr(items) =>
      if !LooksLikeBytes(items) {
        var once := FromJson(v).items;
        forall i | 0 <= i < |items|
          ensures FromJson(once[i]) == once[i] && (InByteRange(once[i]) <==> InByteRange(items[i]))
        {
          NumbersStay(items[i]);
          NormalisingJsonIsIdempotent(items[i]);
        }
      }
    case Obj(fields) =>
      forall i | 0 <= i < |fields|
        ensures FromJson(FromJson(v).fields[i].1) == FromJson(v).fields[i].1
      {
        NormalisingJsonIsIdempotent(fields[i].1);
      }
    case _ =>
  }

  // ---------------------------------------------------------------- through Chrome and back

  /** No byte array is empty, and no plain object could be taken for one. */
  predicate ChromeSafe(v: Value) {
    match v
    case ByteArray(bytes) => bytes != []
    case Arr(items) => forall i :: 0 <= i < |items| ==> ChromeSafe(items[i])
    case Obj(fields) => !LooksLikeSerializedBytes(fields) && forall i :: 0 <= i < |fields| ==> ChromeSafe(fields[i].1)
    case _ => true
  }

  lemma ChromeKeepsLooks(fields: seq<(string, Value)>)
    ensures LooksLikeSerializedBytes(ThroughChrome(Obj(fields)).fields) <==> LooksLikeSerializedBytes(fields)
  {
    var sent := ThroughChrome(Obj(fields)).fields;
    forall i | 0 <= i < |fields|
      ensures sent[i].0 == fields[i].0 && (InByteRange(sent[i].1) <==> InByteRange(fields[i].1))
    {
      NumbersStay(fields[i].1);
    }
  }

  /** Normalising undoes Chrome's encoding exactly for the values that are safe. */
  lemma {:induction false} ChromeRoundTripIff(v: Value)
    ensures FromChrome(ThroughChrome(v)) == v <==> ChromeSafe(v)
  {
    match v
    case ByteArray(bytes) =>
      var sent := ThroughChrome(v).fields;
      if bytes != [] {
        assert LooksLikeSerializedBytes(sent);
        assert FieldValues(sent) == Numbers(bytes);
        BytesOfNumbers(bytes);
      }
    case Arr(items) =>
      var back := FromChrome(ThroughChrome(v));
      forall i | 0 <= i < |items|
        ensures back.items[i] == items[i] <==> ChromeSafe(items[i])
      {
        ChromeRoundTripIff(items[i]);
      }
      assert back == v <==> forall i :: 0 <= i < |items| ==> back.items[i] == items[i];
    case Obj(fields) =>
      ChromeKeepsLooks(fields);
      if !LooksLikeSerializedBytes(fields) {
        var back := FromChrome(ThroughChrome(v));
        forall i | 0 <= i < |fields|
          ensures back.fields[i] == fields[i] <==> ChromeSafe(fields[i].1)
        {
          ChromeRoundTripIff(fields[i].1);
        }
        assert back == v <==> forall i :: 0 <= i < |fields| ==> back.fields[i] == fields[i];
      }
    case _ =>
  }

  lemma {:induction false} NormalisingChromeIsIdempotent(v: Value)
    ensures FromChrome(FromChrome(v)) == FromChrome(v)
  {
    match v
    case Arr(items) =>
      forall i | 0 <= i < |items|
        ensures FromChrome(FromChrome(v).items[i]) == FromChrome(v).items[i]
      {
        NormalisingChromeIsIdempotent(items[i]);
      }
    case Obj(fields) =>
      if !LooksLikeSerializedBytes(fields) {
        var once := FromChrome(v).fields;
        forall i | 0 <= i < |fields|
          ensures once[i].0 == fields[i].0 && FromChrome(once[i].1) == once[i].1
          ensures InByteRange(once[i].1) <==> InByteRange(fields[i].1)
        {
          NumbersStay(fields[i].1);
          NormalisingChromeIsIdempotent(fields[i].1);
        }
      }
    case _ =>
  }

  // ---------------------------------------------------------------- what is taken for bytes

  /** From JSON exactly the non-empty arrays of numbers from 0 to 255 become byte arrays, fractions cut off; from Chrome
      exactly the non-empty objects of such numbers whose keys count up from 0. Nothing else does. */
  lemma TakenForBytesIff(v: Value)
    ensures FromJson(v).ByteArray? <==>
              || v.ByteArray?
              || (v.Arr? && |v.items| > 0
                  && forall i :: 0 <= i < |v.items| ==> v.items[i].Num? && 0.0 <= v.items[i].n <= 255.0)
    ensures FromJson(v).ByteArray? && v.Arr? ==>
              && |FromJson(v).bytes| == |v.items|
              && forall i :: 0 <= i < |v.items| ==> FromJson(v).bytes[i] as real <= v.items[i].n
                                                    && v.items[i].n < FromJson(v).bytes[i] as real + 1.0
    ensures FromChrome(v).ByteArray? <==>
              || v.ByteArray?
              || (v.Obj? && |v.fields| > 0
                  && forall i :: 0 <= i < |v.fields| ==>
                       v.fields[i].0 == Digits(i) && v.fields[i].1.Num? && 0.0 <= v.fields[i].1.n <= 255.0)
    ensures FromChrome(v).ByteArray? && v.Obj? ==>
              && |FromChrome(v).bytes| == |v.fields|
              && forall i :: 0 <= i < |v.fields| ==> FromChrome(v).bytes[i] as real <= v.fields[i].1.n
                                                     && v.fields[i].1.n < FromChrome(v).bytes[i] as real + 1.0
  {
  }
}

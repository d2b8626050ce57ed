/** DictionaryKey: a station name as a (pointer, length) view of the mapped file, with the
    typed equality and the hash the aggregation tables use, and the untyped Equals(object). */
module Keys {
  import opened Bytes

  /** A raw `byte*` into the mapping. Pinning an empty span (`fixed` on a zero-length slice)
      yields the null pointer. */
  datatype Pointer = Null | At(offset: int)

  /** The C# struct DictionaryKey(byte* pointer, int length). */
  datatype DictionaryKey = DictionaryKey(pointer: Pointer, length: int)

  /** The key views `length` bytes of the buffer (an empty key may have any pointer). */
  predicate Valid(buf: seq<byte>, k: DictionaryKey)
  {
    0 <= k.length &&
    (k.length > 0 ==> k.pointer.At? && 0 <= k.pointer.offset && k.pointer.offset + k.length <= |buf|)
  }

  /** The `Value` property: the bytes the key views. */
  function Value(buf: seq<byte>, k: DictionaryKey): (r: seq<byte>)
    requires Valid(buf, k)
    ensures |r| == k.length
    ensures forall i :: 0 <= i < |r| ==> r[i] == buf[k.pointer.offset + i]
  {
    if k.length == 0 then [] else buf[k.pointer.offset .. k.pointer.offset + k.length]
  }

  /** Equals(DictionaryKey other): `Value.SequenceEqual(other.Value)`, compared byte by byte.
      It is exactly equality of the viewed bytes, so a dictionary keyed by DictionaryKey
      behaves as a map keyed by the bytes themselves. */
  predicate Equals(buf: seq<byte>, k: DictionaryKey, other: DictionaryKey)
    requires Valid(buf, k) && Valid(buf, other)
    ensures Equals(buf, k, other) <==> Value(buf, k) == Value(buf, other)
  {
    k.length == other.length &&
    forall i :: 0 <= i < k.length ==> Value(buf, k)[i] == Value(buf, other)[i]
  }

  /** The typed Equals is an equivalence relation. */
  lemma EqualsIsEquivalence(buf: seq<byte>, a: DictionaryKey, b: DictionaryKey, c: DictionaryKey)
    requires Valid(buf, a) && Valid(buf, b) && Valid(buf, c)
    ensures Equals(buf, a, a)
    ensures Equals(buf, a, b) ==> Equals(buf, b, a)
    ensures Equals(buf, a, b) && Equals(buf, b, c) ==> Equals(buf, a, c)
  {
  }

  /** What an `object? obj` argument can be. */
  datatype Object = NullObject | OtherObject | BoxedKey(key: DictionaryKey)

  /** Equals(object obj) as written: `obj is DictionaryKey dictionaryKey && dictionaryKey.Equals(dictionaryKey)`.
      It compares the argument with itself, so it answers true for every boxed key, whatever the
      receiver holds. */
  predicate EqualsObject(buf: seq<byte>, k: DictionaryKey, obj: Object)
    requires Valid(buf, k)
    requires obj.BoxedKey? ==> Valid(buf, obj.key)
    ensures EqualsObject(buf, k, obj) <==> obj.BoxedKey?
  {
    match obj
    case BoxedKey(dictionaryKey) => Equals(buf, dictionaryKey, dictionaryKey)
    case _ => false
  }

  /** So the untyped Equals disagrees with the typed one: two keys with different bytes. */
  lemma EqualsObjectDisagreesWithEquals()
    ensures var buf: seq<byte> := [65, 66];
      var a := DictionaryKey(At(0), 1);
      var b := DictionaryKey(At(1), 1);
      Valid(buf, a) && Valid(buf, b) && !Equals(buf, a, b) && EqualsObject(buf, a, BoxedKey(b))
  {
    var buf: seq<byte> := [65, 66];
    var a := DictionaryKey(At(0), 1);
    var b := DictionaryKey(At(1), 1);
    assert Value(buf, a)[0] != Value(buf, b)[0];
  }

  /** The bytes GetHashCode dereferences exist: four when length > 3, otherwise one, even when
      the key itself is empty. A null pointer cannot be dereferenced. */
  predicate HashReadable(buf: seq<byte>, k: DictionaryKey)
  {
    0 <= k.length <= Int32Max && k.pointer.At? && 0 <= k.pointer.offset &&
    k.pointer.offset + (if k.length > 3 then 4 else 1) <= |buf|
  }

  /** Four bytes read as a little-endian 32-bit int. */
  function Word(b0: byte, b1: byte, b2: byte, b3: byte): bv32
  {
    (b0 as bv32) | ((b1 as bv32) << 8) | ((b2 as bv32) << 16) | ((b3 as bv32) << 24)
  }

  /** `*(int*)pointer`: the int at byte offset `p`. */
  function ReadInt32(buf: seq<byte>, p: int): bv32
    requires 0 <= p && p + 4 <= |buf|
  {
    Word(buf[p], buf[p + 1], buf[p + 2], buf[p + 3])
  }

  /** GetHashCode(): `(length * 655360) ^ *(int*)pointer` when length > 3, otherwise `*pointer`.
      The result is the bit pattern of the C# `int`; the multiplication wraps at 32 bits. */
  function GetHashCode(buf: seq<byte>, k: DictionaryKey): (h: bv32)
    requires HashReadable(buf, k)
  {
    var p := k.pointer.offset;
    if k.length > 3 then ((k.length as bv32) * 655360) ^ ReadInt32(buf, p)
    else buf[p] as bv32
  }

  /** The hash depends only on the length and the bytes it reads. */
  lemma HashOfEqualReads(buf: seq<byte>, a: DictionaryKey, b: DictionaryKey)
    requires HashReadable(buf, a) && HashReadable(buf, b) && a.length == b.length
    requires var p, q := a.pointer.offset, b.pointer.offset;
      buf[p] == buf[q] &&
      (a.length > 3 ==> buf[p + 1] == buf[q + 1] && buf[p + 2] == buf[q + 2] && buf[p + 3] == buf[q + 3])
    ensures GetHashCode(buf, a) == GetHashCode(buf, b)
  {
  }

  /** Hashing is consistent with the typed equality for non-empty keys: keys with the same bytes
      hash alike, because the hash reads only the length and bytes inside the key. */
  lemma EqualKeysHashAlike(buf: seq<byte>, a: DictionaryKey, b: DictionaryKey)
    requires Valid(buf, a) && Valid(buf, b) && a.length >= 1 && b.length >= 1
    requires a.length <= Int32Max && b.length <= Int32Max
    requires Equals(buf, a, b)
    ensures HashReadable(buf, a) && HashReadable(buf, b)
    ensures GetHashCode(buf, a) == GetHashCode(buf, b)
  {
    var p, q := a.pointer.offset, b.pointer.offset;
    var va, vb := Value(buf, a), Value(buf, b);
    assert buf[p] == va[0] && buf[q] == vb[0];
    if a.length > 3 {
      assert buf[p + 1] == va[1] && buf[q + 1] == vb[1];
      assert buf[p + 2] == va[2] && buf[q + 2] == vb[2];
      assert buf[p + 3] == va[3] && buf[q + 3] == vb[3];
    }
    HashOfEqualReads(buf, a, b);
  }

  /** For an empty key with a real pointer the hash reads the byte after the key: two equal empty
      keys can hash apart. (The scanner's empty keys have a null pointer instead.) */
  lemma EmptyKeysCanHashApart()
    ensures var buf: seq<byte> := [65, 66];
      var a := DictionaryKey(At(0), 0);
      var b := DictionaryKey(At(1), 0);
      Valid(buf, a) && Valid(buf, b) && Equals(buf, a, b) &&
      HashReadable(buf, a) && HashReadable(buf, b) && GetHashCode(buf, a) != GetHashCode(buf, b)
  {
  }
}

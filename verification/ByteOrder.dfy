/** Big-endian 16-bit stores and loads, and the bits of bytes and words. */
module ByteOrder {

  function High(v: bv16): bv8 {
    (v >> 8) as bv8
  }

  function Low(v: bv16): bv8 {
    (v & 0xFF) as bv8
  }

  /** `load_be16` */
  function LoadBe16(p0: bv8, p1: bv8): bv16 {
    ((p0 as bv16) << 8) | (p1 as bv16)
  }

  /** `store_be16`: what it writes is what `load_be16` reads back as `v`. */
  method StoreBe16(p: array<bv8>, v: bv16)
    requires p.Length >= 2
    modifies p
    ensures LoadBe16(p[0], p[1]) == v
    ensures p[0] == High(v) && p[1] == Low(v)
    ensures forall i :: 2 <= i < p.Length ==> p[i] == old(p[i])
  {
    p[0] := (v >> 8) as bv8;
    p[1] := (v & 0xFF) as bv8;
    LoadStore(v);
  }

  lemma LoadStore(v: bv16)
    ensures LoadBe16(High(v), Low(v)) == v
  {
  }

  /** The two bytes are determined by the word they load as. */
  lemma StoreLoad(a: bv8, b: bv8)
    ensures High(LoadBe16(a, b)) == a && Low(LoadBe16(a, b)) == b
  {
  }
}

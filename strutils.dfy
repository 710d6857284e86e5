/** utils/strutils.go: `Str2u64`, the 64-bit FNV-1a hash of a string's bytes
    (Fowler-Noll-Vo, as described in section 2 of the IETF draft
    draft-eastlake-fnv). The FUSE layer uses it as the inode of a dirent. */
module StrUtils {
  import opened Base

  /** The 64-bit FNV offset basis, 14695981039346656037. */
  const OffsetBasis: bv64 := 0xcbf2_9ce4_8422_2325
  /** The 64-bit FNV prime, 1099511628211. */
  const Prime: bv64 := 0x100_0000_01b3

  /** One FNV-1a round: XOR the byte into the low bits, then multiply by the
      prime; `bv64` multiplication wraps modulo 2^64 like Go's uint64. */
  function Step(h: bv64, b: byte): bv64
  {
    (h ^ (b as bv64)) * Prime
  }

  /** The FNV-1a loop of hash/fnv's Write, run from state `h` over `s`,
      first byte first. */
  function HashFrom(h: bv64, s: Bytes): bv64
    decreases |s|
  {
    if s == [] then h else HashFrom(Step(h, s[0]), s[1..])
  }

  /** `Str2u64(s)`: a fresh FNV-1a state (the offset basis), fed every byte
      of `s`, then read out with Sum64. */
  function Str2u64(s: Bytes): (r: bv64)
    ensures s == [] ==> r == OffsetBasis
  {
    HashFrom(OffsetBasis, s)
  }

  /** Feeding `a` and then `b` is feeding `a + b`: the hash state after a
      prefix is all the loop carries forward. */
  lemma {:induction false} HashFromAppend(h: bv64, a: Bytes, b: Bytes)
    ensures HashFrom(h, a + b) == HashFrom(HashFrom(h, a), b)
    decreases |a|
  {
    if a == [] {
      assert a + b == b;
    } else {
      assert (a + b)[0] == a[0];
      assert (a + b)[1..] == a[1..] + b;
      HashFromAppend(Step(h, a[0]), a[1..], b);
    }
  }

  /** The step law: hashing `s` followed by byte `b` is one more FNV-1a
      round on the hash of `s`. */
  lemma Str2u64Snoc(s: Bytes, b: byte)
    ensures Str2u64(s + [b]) == Step(Str2u64(s), b)
  {
    HashFromAppend(OffsetBasis, s, [b]);
    assert [b][1..] == [];
  }

  /** Test vectors of the 64-bit FNV-1a hash: the empty string and "a". */
  lemma ShortVectors()
    ensures Str2u64([]) == 0xcbf2_9ce4_8422_2325
    ensures Str2u64([0x61]) == 0xaf63_dc4c_8601_ec8c
  {
    assert Step(OffsetBasis, 0x61) == 0xaf63_dc4c_8601_ec8c;
    assert [0x61 as bv8][1..] == [];
  }

  /** Test vector of the 64-bit FNV-1a hash: "foobar", one round per byte,
      from the last round back to the first. */
  lemma FoobarVector()
    ensures Str2u64([0x66, 0x6f, 0x6f, 0x62, 0x61, 0x72]) == 0x8594_4171_f739_67e8
  {
    assert HashFrom(0xcac1_65af_a2fe_f40a, [0x72]) == 0x8594_4171_f739_67e8;
    assert HashFrom(0xdd12_0e79_0c25_12af, [0x61, 0x72]) == HashFrom(0xcac1_65af_a2fe_f40a, [0x72]);
    assert HashFrom(0xdcb2_7518_fed9_d577, [0x62, 0x61, 0x72]) == HashFrom(0xdd12_0e79_0c25_12af, [0x61, 0x72]);
    assert HashFrom(0x0898_5907_b541_d342, [0x6f, 0x62, 0x61, 0x72]) == HashFrom(0xdcb2_7518_fed9_d577, [0x62, 0x61, 0x72]);
    assert HashFrom(0xaf63_db4c_8601_ead9, [0x6f, 0x6f, 0x62, 0x61, 0x72]) == HashFrom(0x0898_5907_b541_d342, [0x6f, 0x62, 0x61, 0x72]);
    assert HashFrom(OffsetBasis, [0x66, 0x6f, 0x6f, 0x62, 0x61, 0x72]) == HashFrom(0xaf63_db4c_8601_ead9, [0x6f, 0x6f, 0x62, 0x61, 0x72]);
  }
}

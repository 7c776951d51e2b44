/**
 * The version display of `vdh_show_manager_version` in
 * tools/vdb-dump/vdb-dump-helper.c: the 32-bit manager version splits into
 * major (top 8 bits), minor (next 8 bits) and release (low 16 bits).
 */
module ManagerVersion {

  datatype Version = Version(major: bv32, minor: bv32, release: bv32)

  /** `maj = v >> 24`, `min = (v >> 16) & 0xFF`, `rel = v & 0xFFFF`. */
  function Decode(v: bv32): (r: Version)
    ensures r.major < 0x100 && r.minor < 0x100 && r.release < 0x1_0000
    ensures (r.major << 24) | (r.minor << 16) | r.release == v
  {
    Version(v >> 24, (v >> 16) & 0xFF, v & 0xFFFF)
  }

  /** Packs the three fields back into one 32-bit version. */
  function Encode(r: Version): bv32
  {
    (r.major << 24) | (r.minor << 16) | r.release
  }

  /** Fields in range survive a pack and a decode unchanged. */
  lemma DecodeEncode(r: Version)
    requires r.major < 0x100 && r.minor < 0x100 && r.release < 0x1_0000
    ensures Decode(Encode(r)) == r
  {
  }

  /** The decoded fields of one version are a faithful view of it: distinct versions decode apart. */
  lemma DecodeInjective(v: bv32, w: bv32)
    requires Decode(v) == Decode(w)
    ensures v == w
  {
  }
}

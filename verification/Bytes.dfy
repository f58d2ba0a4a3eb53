/**
 Copying into memory.
 */
module Bytes {

  /** The memory after `source` was copied to `at`. */
  function Overwrite(bytes: seq<bv8>, at: nat, source: seq<bv8>): (r: seq<bv8>)
    requires at + |source| <= |bytes|
    ensures |r| == |bytes|
  {
    bytes[..at] + source + bytes[at + |source|..]
  }

  lemma OverwriteOneMore(bytes: seq<bv8>, at: nat, source: seq<bv8>, k: nat)
    requires at + |source| <= |bytes| && k < |source|
    ensures Overwrite(bytes, at, source[..k + 1]) == Overwrite(bytes, at, source[..k])[at + k := source[k]]
  {
  }
}

/** Bytes, an option type and PHP's ASCII lower-casing: the vocabulary the rest of the model shares. */
module Basics {

  /**
   * PHP strings are byte strings; every text value the source reads or stores is a sequence of
   * bytes. Names fixed in the code (claim keys, the token type) are Dafny strings.
   */
  type byte = bv8
  type Bytes = seq<byte>

  datatype Option<+T> = None | Some(value: T) {
    /** PHP's `$x ?? $default`: the value when present, the default otherwise. */
    function GetOr(default: T): T {
      match this
      case Some(v) => v
      case None => default
    }
  }

  /** 'A' .. 'Z' */
  predicate IsUpper(b: byte) {
    65 <= b <= 90
  }

  /** `strtolower` on one byte: since PHP 8.2 it maps only the ASCII letters, whatever the locale. */
  function LowerByte(b: byte): (r: byte)
    ensures !IsUpper(r)
    ensures !IsUpper(b) ==> r == b
    ensures IsUpper(b) ==> 97 <= r <= 122 && r - 32 == b
  {
    if IsUpper(b) then b + 32 else b
  }

  /** `strtolower` on a string. */
  function Lower(s: Bytes): (r: Bytes)
    ensures |r| == |s|
    ensures forall i :: 0 <= i < |s| ==> !IsUpper(r[i])
    ensures forall i :: 0 <= i < |s| ==> r[i] == (if IsUpper(s[i]) then s[i] + 32 else s[i])
  {
    seq(|s|, i requires 0 <= i < |s| => LowerByte(s[i]))
  }

  predicate HasUpper(s: Bytes) {
    exists i :: 0 <= i < |s| && IsUpper(s[i])
  }

  /** Lower-casing changes a string exactly when it holds an upper-case ASCII letter. */
  lemma LowerFixesExactlyLowerCase(s: Bytes)
    ensures Lower(s) == s <==> !HasUpper(s)
  {
    if HasUpper(s) {
      var i :| 0 <= i < |s| && IsUpper(s[i]);
      assert Lower(s)[i] != s[i];
    } else {
      assert forall i :: 0 <= i < |s| ==> Lower(s)[i] == s[i];
    }
  }

  /** Lower-casing twice is lower-casing once. */
  lemma LowerIdempotent(s: Bytes)
    ensures Lower(Lower(s)) == Lower(s)
  {
    LowerFixesExactlyLowerCase(Lower(s));
  }
}

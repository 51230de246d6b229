/** The conventional optional value. */
module Wrappers {
  datatype Option<+T> = None | Some(value: T)
}

/**
 * Byte strings as the server sees them: a Rust `&str` is handled by byte
 * index, and every response is a `Vec<u8>`.
 */
module Bytes {
  import opened Wrappers

  type byte = b: int | 0 <= b < 0x100

  /** Line feed, the only line separator the server writes. */
  const NL: byte := 10
  /** The character that ends the request path. */
  const SPACE: byte := 32

  /**
   * The bytes of an ASCII string literal: UTF-8 encodes each ASCII
   * character as the one byte equal to its code.
   */
  function Ascii(s: string): (b: seq<byte>)
    requires forall i | 0 <= i < |s| :: s[i] as int < 0x80
  {
    seq(|s|, i requires 0 <= i < |s| => s[i] as int)
  }

  /**
   * The first index of `x` in `s`, as Rust's `str::find` returns it for a
   * one-byte ASCII pattern (such a byte never occurs inside a multi-byte
   * UTF-8 character, so the first matching byte is the first matching char).
   */
  function Find(s: seq<byte>, x: byte): (r: Option<nat>)
    ensures r.None? <==> x !in s
    ensures r.Some? ==> r.value < |s| && s[r.value] == x && x !in s[..r.value]
  {
    if s == [] then None
    else if s[0] == x then Some(0)
    else
      match Find(s[1..], x)
      case None => None
      case Some(i) =>
        assert s[..i + 1] == [s[0]] + s[1..][..i];
        Some(i + 1)
  }

  /** `Find` is determined by the first occurrence it reports. */
  lemma FindFirst(s: seq<byte>, x: byte, k: nat)
    requires k < |s| && s[k] == x && x !in s[..k]
    ensures Find(s, x) == Some(k)
  {
  }

  /** A sequence that starts with `p` is `p` followed by the rest. */
  lemma PrefixRest(p: seq<byte>, s: seq<byte>)
    requires p <= s
    ensures s == p + s[|p|..]
  {
    assert s == s[..|p|] + s[|p|..];
  }

  /** A sequence is its prefix followed by whatever its suffix is made of. */
  lemma SplitAt(s: seq<byte>, i: nat, a: seq<byte>, b: seq<byte>)
    requires i <= |s| && s[i..] == a + b
    ensures s == s[..i] + a + b
  {
    assert s == s[..i] + s[i..];
  }

  /**
   * Rust's `str::is_char_boundary`: offset 0 and the length are boundaries,
   * an offset past the end is not, and an inner offset is one unless the
   * byte there is a UTF-8 continuation byte (0x80 to 0xBF). Slicing a
   * `&str` at a non-boundary panics.
   */
  predicate IsCharBoundary(s: seq<byte>, i: nat) {
    i == 0 || i == |s| || (i < |s| && !(0x80 <= s[i] < 0xC0))
  }
}

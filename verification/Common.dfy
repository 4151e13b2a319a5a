/** Options, byte strings, hexadecimal texts and the limits that several modules share. */
module Common {

  datatype Option<T> = None | Some(value: T)

  /** Bytes, written as characters. */
  type Bytes = string

  const MAX_U64: nat := 0xFFFF_FFFF_FFFF_FFFF

  /** The most commits of a walk, and the most leaves of a closure. */
  const MAX_ENTRIES: nat := 1_000_000

  /** The only reference a run reads or moves. */
  const TARGET_REF: string := "refs/heads/main"

  predicate IsHexDigit(c: char) { '0' <= c <= '9' || 'a' <= c <= 'f' }

  predicate IsHex40(s: string) { |s| == 40 && forall i | 0 <= i < |s| :: IsHexDigit(s[i]) }

  predicate IsHex64(s: string) { |s| == 64 && forall i | 0 <= i < |s| :: IsHexDigit(s[i]) }
}

/** Values shared by every part of the model: C integer widths, optional results and the
    "clean" strings that survive the server's control-character filter. */
module Types {

  type byte = x: int | 0 <= x < 0x100
  type uint16 = x: int | 0 <= x < 0x1_0000
  type uint32 = x: int | 0 <= x < 0x1_0000_0000

  /** A SHA-1 digest (HASH_LENGTH bytes). */
  type Digest = d: seq<byte> | |d| == HASH_LENGTH witness seq(HASH_LENGTH, i => 0)

  const HASH_LENGTH: nat := 20
  const MAX_NAME: nat := 32
  const MIN_NAME: nat := 2
  const MAX_PACKET: nat := 9600

  datatype Option<+T> = None | Some(value: T) {
    predicate IsFailure() {
      None?
    }

    function PropagateFailure<U>(): Option<U>
      requires None?
    {
      None
    }

    function Extract(): T
      requires Some?
    {
      value
    }
  }

  /** What read_next_ntstring lets through: 0x20..0x7F. */
  predicate Visible(c: char) {
    0x20 <= c as int <= 0x7F
  }

  predicate Clean(s: string) {
    forall i :: 0 <= i < |s| ==> Visible(s[i])
  }

  /** A C string: every character is a non-zero byte. */
  predicate CString(s: string) {
    forall i :: 0 <= i < |s| ==> 1 <= s[i] as int < 0x100
  }

  /** strncpy into a buffer of `size` bytes whose last byte is then set to NUL. */
  function Truncate(s: string, size: nat): (r: string)
    requires size > 0
    ensures |r| < size
    ensures |s| < size ==> r == s
  {
    if |s| < size then s else s[..size - 1]
  }

  /** strchr: the first index of c, or the length. */
  function IndexOfChar(s: string, c: char): (i: nat)
    ensures i <= |s|
    ensures i < |s| ==> s[i] == c
    ensures forall j :: 0 <= j < i ==> s[j] != c
  {
    if s == "" || s[0] == c then 0 else 1 + IndexOfChar(s[1..], c)
  }

  lemma IndexOfCharIs(s: string, c: char, i: nat)
    requires i <= |s| && (i < |s| ==> s[i] == c) && forall j :: 0 <= j < i ==> s[j] != c
    ensures IndexOfChar(s, c) == i
  {
  }

  function Lower(c: char): char {
    if 'A' <= c <= 'Z' then (c as int + 32) as char else c
  }

  /** strcasecmp(a, b) == 0 */
  predicate SameIgnoringCase(a: string, b: string) {
    |a| == |b| && forall i :: 0 <= i < |a| ==> Lower(a[i]) == Lower(b[i])
  }
}

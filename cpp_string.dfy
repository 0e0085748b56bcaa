/**
 * The members of std::string that the generic-name parsers use, with the
 * unsigned arithmetic of their arguments written out: size_t is 64 bits wide,
 * the `uint` the map parser stores positions in is 32 bits wide.
 */
module CppString {
  import opened Exceptions

  /** 2^64, the number of size_t values. */
  const SIZE_T_RANGE: nat := 0x1_0000_0000_0000_0000
  /** std::string::npos, the largest size_t; find returns it when nothing is found. */
  const NPOS: nat := SIZE_T_RANGE - 1
  /** 2^32, the number of `uint` values. */
  const UINT_RANGE: nat := 0x1_0000_0000

  /** An integer reduced to size_t: unsigned wrap-around modulo 2^64. */
  function SizeT(x: int): (r: nat)
    ensures r < SIZE_T_RANGE
    ensures 0 <= x < SIZE_T_RANGE ==> r == x
    ensures x < 0 && 0 <= x + SIZE_T_RANGE ==> r == x + SIZE_T_RANGE
    ensures x + SIZE_T_RANGE < 0 && 0 <= x + 2 * SIZE_T_RANGE ==> r == x + 2 * SIZE_T_RANGE
    ensures SIZE_T_RANGE <= x < 2 * SIZE_T_RANGE ==> r == x - SIZE_T_RANGE
  {
    x % SIZE_T_RANGE
  }

  /** An integer reduced to a 32-bit `uint`: unsigned wrap-around modulo 2^32. */
  function UInt(x: int): (r: nat)
    ensures r < UINT_RANGE
    ensures 0 <= x < UINT_RANGE ==> r == x
    ensures x < 0 && 0 <= x + UINT_RANGE ==> r == x + UINT_RANGE
    ensures UINT_RANGE <= x < 2 * UINT_RANGE ==> r == x - UINT_RANGE
    ensures x == NPOS ==> r == UINT_RANGE - 1
  {
    x % UINT_RANGE
  }

  function Min(a: int, b: int): int { if a <= b then a else b }

  /** Index of the first occurrence of c in s, for an s that contains c. */
  function FirstIndex(s: string, c: char): (r: nat)
    requires c in s
    ensures r < |s| && s[r] == c
    ensures c !in s[..r]
  {
    if s[0] == c then 0
    else
      assert s == [s[0]] + s[1..];
      var k := FirstIndex(s[1..], c);
      assert s[..k + 1] == [s[0]] + s[1..][..k];
      k + 1
  }

  /** A position holding c with no c before it is the first index of c. */
  lemma FirstIndexIsUnique(s: string, c: char, k: nat)
    requires k < |s| && s[k] == c && c !in s[..k]
    ensures FirstIndex(s, c) == k
  {
    var r := FirstIndex(s, c);
    assert s[..k][..r] == s[..r] <== r <= k;
    assert s[..r][..k] == s[..k] <== k <= r;
  }

  /** std::string::find(char): the first position of c, or npos when s has none. */
  function Find(s: string, c: char): (r: nat)
    requires |s| < NPOS
    ensures r < |s| <==> c in s
    ensures r >= |s| ==> r == NPOS
    ensures r < |s| ==> s[r] == c && c !in s[..r]
  {
    if c in s then FirstIndex(s, c) else NPOS
  }

  /**
   * std::string::substr(pos, count): the at most count characters from pos
   * on; std::out_of_range when pos is past the end.
   */
  function Substr(s: string, pos: nat, count: nat): (r: Result<string>)
    ensures r.Throw? <==> pos > |s|
    ensures r.Throw? ==> r.exception == OutOfRange
    ensures r.Ok? ==> |r.value| == Min(count, |s| - pos) && |r.value| <= |s|
    ensures r.Ok? ==> r.value == s[pos..pos + |r.value|]
  {
    if pos > |s| then Throw(OutOfRange)
    else Ok(s[pos..pos + Min(count, |s| - pos)])
  }

  /** Index of the first character of s other than c, for an s that has one. */
  function FirstIndexNot(s: string, c: char): (r: nat)
    requires exists i :: 0 <= i < |s| && s[i] != c
    ensures r < |s| && s[r] != c
    ensures forall i :: 0 <= i < r ==> s[i] == c
  {
    if s[0] != c then 0
    else
      assert exists i :: 0 <= i < |s[1..]| && s[1..][i] != c by {
        var i :| 0 <= i < |s| && s[i] != c;
        assert s[1..][i - 1] == s[i];
      }
      FirstIndexNot(s[1..], c) + 1
  }

  /** std::string::find_first_not_of(char): the first position not holding c, or npos. */
  function FindFirstNotOf(s: string, c: char): (r: nat)
    requires |s| < NPOS
    ensures r < |s| ==> s[r] != c && forall i :: 0 <= i < r ==> s[i] == c
    ensures r >= |s| ==> r == NPOS && forall i :: 0 <= i < |s| ==> s[i] == c
  {
    if exists i :: 0 <= i < |s| && s[i] != c then FirstIndexNot(s, c) else NPOS
  }

  /** std::string::erase(0, count): s without its first count characters (all of them when count exceeds the size). */
  function EraseFront(s: string, count: nat): (r: string)
    ensures |r| == |s| - Min(count, |s|)
    ensures r == s[Min(count, |s|)..]
  {
    s[Min(count, |s|)..]
  }

  /**
   * `s.erase(0, s.find_first_not_of(' '))`: s with its leading spaces removed.
   * What is left is a suffix of s that is empty or starts with a non-space,
   * and everything removed was a space.
   */
  function EraseLeadingSpaces(s: string): (r: string)
    requires |s| < NPOS
    ensures |r| <= |s| && r == s[|s| - |r|..]
    ensures forall i :: 0 <= i < |s| - |r| ==> s[i] == ' '
    ensures r == [] || r[0] != ' '
  {
    EraseFront(s, FindFirstNotOf(s, ' '))
  }

  /** A string that does not start with a space loses nothing. */
  lemma EraseNoLeadingSpace(s: string)
    requires |s| < NPOS && (s == [] || s[0] != ' ')
    ensures EraseLeadingSpaces(s) == s
  {
  }

  /** A leading space is erased and the rest is treated the same way. */
  lemma EraseLeadingSpace(s: string)
    requires 0 < |s| < NPOS && s[0] == ' '
    ensures EraseLeadingSpaces(s) == EraseLeadingSpaces(s[1..])
  {
  }
}

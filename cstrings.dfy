/** NUL-terminated strings inside fixed-size char buffers, as the C library sees them. */
module CStrings {

  /** strlen: the index of the first NUL. */
  function StrLen(s: seq<char>): (n: nat)
    requires '\0' in s
    ensures n < |s| && s[n] == '\0'
    ensures forall i :: 0 <= i < n ==> s[i] != '\0'
  {
    if s[0] == '\0' then 0
    else
      assert '\0' in s[1..] by {
        var j :| 0 <= j < |s| && s[j] == '\0';
        assert s[1..][j - 1] == '\0';
      }
      StrLen(s[1..]) + 1
  }

  /** The text a C string holds: everything before its terminator. */
  function Text(s: seq<char>): (t: seq<char>)
    requires '\0' in s
    ensures '\0' !in t && t + ['\0'] == s[..StrLen(s) + 1]
  {
    s[..StrLen(s)]
  }

  /** Any NUL position with no NUL before it is the string length. */
  lemma StrLenAt(s: seq<char>, n: nat)
    requires n < |s| && s[n] == '\0'
    requires forall i :: 0 <= i < n ==> s[i] != '\0'
    ensures StrLen(s) == n
  {
  }
}

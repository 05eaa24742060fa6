/** The two `java.lang.String` operations the writer uses, on non-null strings. */
module JavaStrings {

  /** `s.indexOf(c)`: the position of the first occurrence of `c`, or -1 when
      `c` does not occur. */
  function IndexOf(s: string, c: char): (r: int)
    ensures -1 <= r < |s|
    ensures r == -1 <==> c !in s
    ensures 0 <= r ==> s[r] == c && c !in s[..r]
  {
    if |s| == 0 then -1
    else if s[0] == c then 0
    else
      var k := IndexOf(s[1..], c);
      if k == -1 then -1
      else
        assert s[..k + 1] == [s[0]] + s[1..][..k];
        k + 1
  }

  /** `s.substring(begin)`: the characters from `begin` to the end. Java throws
      when `begin` is outside `[0, s.length()]`; the writer only calls it with a
      position just past a character of `s`. */
  function Substring(s: string, begin: int): (r: string)
    requires 0 <= begin <= |s|
    ensures |r| == |s| - begin
    ensures s == s[..begin] + r
  {
    s[begin..]
  }

  /** `t` is a trailing part of `s`. */
  predicate IsSuffix(t: string, s: string) {
    |t| <= |s| && s[|s| - |t|..] == t
  }

  /** Any string that starts with `pre` then `c` has its first `c` right after
      `pre` when `pre` holds none. */
  lemma {:induction false} IndexOfAfterPrefix(pre: string, c: char, rest: string)
    requires c !in pre
    ensures IndexOf(pre + [c] + rest, c) == |pre|
  {
    var s := pre + [c] + rest;
    assert s[|pre|] == c;
    assert s[..|pre|] == pre;
  }
}

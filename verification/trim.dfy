/**
 * ECMAScript's `String.prototype.trim`, as far as the note editor needs it:
 * a draft is blank exactly when trimming it leaves the empty string, and the
 * empty string is the only falsy string.
 */
module JsTrim {

  /** The characters `trim` strips from both ends: ECMAScript WhiteSpace
      (tab, vertical tab, form feed, space, no-break space, the byte order
      mark and the other Unicode space separators) and LineTerminator (line
      feed, carriage return, line separator, paragraph separator). */
  predicate IsTrimmable(c: char)
  {
    var n := c as int;
    n == 0x09 || n == 0x0A || n == 0x0B || n == 0x0C || n == 0x0D || n == 0x20
    || n == 0xA0 || n == 0x1680 || (0x2000 <= n <= 0x200A)
    || n == 0x2028 || n == 0x2029 || n == 0x202F || n == 0x205F
    || n == 0x3000 || n == 0xFEFF
  }

  predicate AllTrimmable(s: string)
  {
    forall i :: 0 <= i < |s| ==> IsTrimmable(s[i])
  }

  /** Drops the leading trimmable characters: the result is a suffix of `s`,
      everything dropped was trimmable, and it starts with a kept character. */
  function TrimStart(s: string): (r: string)
    ensures |r| <= |s| && r == s[|s| - |r|..]
    ensures AllTrimmable(s[..|s| - |r|])
    ensures r == [] || !IsTrimmable(r[0])
  {
    if s != [] && IsTrimmable(s[0]) then
      var r := TrimStart(s[1..]);
      assert s[..|s| - |r|] == [s[0]] + s[1..][..|s| - 1 - |r|];
      r
    else
      s
  }

  /** Drops the trailing trimmable characters: the result is a prefix of `s`,
      everything dropped was trimmable, and it ends with a kept character. */
  function TrimEnd(s: string): (r: string)
    ensures |r| <= |s| && r == s[..|r|]
    ensures AllTrimmable(s[|r|..])
    ensures r == [] || !IsTrimmable(r[|r| - 1])
  {
    if s != [] && IsTrimmable(s[|s| - 1]) then
      var r := TrimEnd(s[..|s| - 1]);
      assert s[|r|..] == s[..|s| - 1][|r|..] + [s[|s| - 1]];
      r
    else
      s
  }

  /** `s.trim()`. The result is empty exactly when every character of `s`
      is trimmable; otherwise it starts and ends with a character that is
      not. `TrimIsFramed` adds that it is the slice of `s` left once the
      trimmable prefix and suffix are gone. */
  function Trim(s: string): (r: string)
    ensures |r| <= |s|
    ensures r == [] <==> AllTrimmable(s)
    ensures r != [] ==> !IsTrimmable(r[0]) && !IsTrimmable(r[|r| - 1])
  {
    var t := TrimStart(s);
    var r := TrimEnd(t);
    TrimIsInfix(s, t, r);
    r
  }

  /** `Trim(s)` is `s` with a trimmable prefix and a trimmable suffix cut
      off, starting where `TrimStart` stopped. */
  lemma TrimIsFramed(s: string)
    ensures |s| - |TrimStart(s)| + |Trim(s)| <= |s|
    ensures TrimmedSlice(s, |s| - |TrimStart(s)|, Trim(s))
  {
    TrimIsInfix(s, TrimStart(s), TrimEnd(TrimStart(s)));
  }

  /** `r` sits at index `i` of `s` with only trimmable characters around it. */
  predicate TrimmedSlice(s: string, i: nat, r: string)
    requires i + |r| <= |s|
  {
    r == s[i..i + |r|] && AllTrimmable(s[..i]) && AllTrimmable(s[i + |r|..])
  }

  /** Stripping a trimmable prefix and then a trimmable suffix leaves a slice
      of `s` framed by trimmable characters, and leaves nothing only when
      nothing was kept. */
  lemma TrimIsInfix(s: string, t: string, r: string)
    requires |t| <= |s| && t == s[|s| - |t|..] && AllTrimmable(s[..|s| - |t|])
    requires t == [] || !IsTrimmable(t[0])
    requires |r| <= |t| && r == t[..|r|] && AllTrimmable(t[|r|..])
    ensures |s| - |t| + |r| <= |s| && TrimmedSlice(s, |s| - |t|, r)
    ensures r == [] <==> AllTrimmable(s)
  {
    var i := |s| - |t|;
    PrefixOfSuffix(s, t, r);
    if r == [] {
      assert s == s[..i];
    }
  }

  /** A prefix of a suffix is a slice; what follows it is a suffix of both. */
  lemma PrefixOfSuffix<T>(s: seq<T>, t: seq<T>, r: seq<T>)
    requires |t| <= |s| && t == s[|s| - |t|..]
    requires |r| <= |t| && r == t[..|r|]
    ensures r == s[|s| - |t|..|s| - |t| + |r|]
    ensures s[|s| - |t| + |r|..] == t[|r|..]
  {
  }

  /** A draft whose `trim()` is falsy, that is, empty: one made only of
      whitespace and line terminators. */
  predicate IsBlank(s: string)
    ensures IsBlank(s) <==> AllTrimmable(s)
  {
    Trim(s) == []
  }
}

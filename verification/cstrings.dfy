/** Character buffers as C sees them: bounded writes of NUL-terminated strings. */
module CStrings {

  function Min(a: int, b: int): int
  {
    if a < b then a else b
  }

  /**
   * The buffer `buf` after `snprintf(buf + at, size, "%s", s)`: nothing when `size` is 0,
   * otherwise the C string `Fitted(s, size)` followed by a NUL.
   */
  function PutCStr(buf: seq<char>, at: nat, size: nat, s: seq<char>): (r: seq<char>)
    requires at + size <= |buf|
    ensures |r| == |buf|
    ensures forall i :: 0 <= i < |buf| && !(at <= i < at + size) ==> r[i] == buf[i]
  {
    if size == 0 then buf
    else
      var t := Fitted(s, size);
      buf[..at] + t + ['\0'] + buf[at + |t| + 1..]
  }

  /** What `%s` reads of `s`: the characters before its first NUL, or all of `s` when it has none. */
  function CText(s: seq<char>): (c: seq<char>)
    ensures |c| <= |s| && c == s[..|c|] && '\0' !in c
    ensures |c| < |s| ==> s[|c|] == '\0'
  {
    s[..StrLen(s)]
  }

  /** What a bounded `%s` of `size` bytes writes before its NUL: the C string of `s`, cut to `size - 1` characters. */
  function Fitted(s: seq<char>, size: nat): (t: seq<char>)
    requires size > 0
    ensures |t| < size && |t| <= |s| && t == s[..|t|] && '\0' !in t
    ensures '\0' !in s && |s| < size ==> t == s
  {
    var c := CText(s);
    c[..Min(|c|, size - 1)]
  }

  /** `s` written as a C string over the start of `buf`: its characters, a NUL, and what `buf` held after that. */
  function Terminated(buf: seq<char>, s: seq<char>): (r: seq<char>)
    requires |s| < |buf|
  {
    s + ['\0'] + buf[|s| + 1..]
  }

  /** The length of the C string at the start of `s`: the index of its first NUL, or `|s|` when there is none. */
  function StrLen(s: seq<char>): (n: nat)
    ensures n <= |s|
    ensures forall i :: 0 <= i < n ==> s[i] != '\0'
    ensures n < |s| ==> s[n] == '\0'
  {
    if s == [] || s[0] == '\0' then 0 else 1 + StrLen(s[1..])
  }

  /** A write that fits whole leaves a C string that `strlen` measures exactly. */
  lemma PutCStrFits(buf: seq<char>, size: nat, s: seq<char>)
    requires '\0' !in s
    requires |s| < size <= |buf|
    ensures PutCStr(buf, 0, size, s) == Terminated(buf, s)
    ensures StrLen(Terminated(buf, s)) == |s|
  {
    PutCStrWhole(buf, 0, size, s);
    assert buf[..0] + s == s;
    StrLenTerminated(buf, s);
  }

  /** `strlen` of a terminated string is the length of the string, when it holds no NUL. */
  lemma StrLenTerminated(buf: seq<char>, s: seq<char>)
    requires '\0' !in s && |s| < |buf|
    ensures StrLen(Terminated(buf, s)) == |s|
  {
    var t := Terminated(buf, s);
    assert t[|s|] == '\0';
    forall i | 0 <= i < |s| ensures t[i] != '\0' {
      assert t[i] == s[i];
    }
    StrLenIs(t, |s|);
  }

  /** The C string of `a + b` is that of `a` when `a` holds a NUL, and starts with all of `a` otherwise. */
  lemma CTextAppend(a: seq<char>, b: seq<char>)
    ensures |CText(a)| < |a| ==> CText(a + b) == CText(a)
    ensures |CText(a)| == |a| ==> |a| <= |CText(a + b)| && CText(a + b)[..|a|] == a
  {
    var n := StrLen(a);
    if n < |a| {
      StrLenIs(a + b, n);
    } else {
      assert forall i :: 0 <= i < |a| ==> (a + b)[i] != '\0';
    }
  }

  lemma {:induction false} StrLenIs(s: seq<char>, n: nat)
    requires n < |s| && s[n] == '\0'
    requires forall i :: 0 <= i < n ==> s[i] != '\0'
    ensures StrLen(s) == n
  {
    if n > 0 {
      StrLenIs(s[1..], n - 1);
    }
  }

  /** A write that fits whole puts all of `s` and its NUL at `at`. */
  lemma PutCStrWhole(buf: seq<char>, at: nat, size: nat, s: seq<char>)
    requires at + size <= |buf| && |s| < size && '\0' !in s
    ensures PutCStr(buf, at, size, s) == buf[..at] + s + ['\0'] + buf[at + |s| + 1..]
  {
  }

  /** A write at the start of `buf` leaves the C string `Fitted(s, size)` there. */
  lemma PutCStrAtStart(buf: seq<char>, size: nat, s: seq<char>)
    requires 0 < size <= |buf|
    ensures PutCStr(buf, 0, size, s) == Terminated(buf, Fitted(s, size))
    ensures StrLen(PutCStr(buf, 0, size, s)) == |Fitted(s, size)|
  {
    var t := Fitted(s, size);
    assert buf[..0] + t == t;
    StrLenTerminated(buf, t);
  }

  /** A second write that starts at the first one's NUL and fits extends the C string. */
  lemma TerminatedAppend(buf: seq<char>, a: seq<char>, size: nat, b: seq<char>)
    requires |a| + size <= |buf| && |b| < size && '\0' !in b
    ensures PutCStr(Terminated(buf, a), |a|, size, b) == Terminated(buf, a + b)
  {
    var t := Terminated(buf, a);
    PutCStrWhole(t, |a|, size, b);
    TerminatedParts(buf, a, |b|);
  }

  /** A terminated string starts with the string, and past its NUL holds what `buf` held. */
  lemma TerminatedParts(buf: seq<char>, a: seq<char>, k: nat)
    requires |a| + k < |buf|
    ensures Terminated(buf, a)[..|a|] == a
    ensures Terminated(buf, a)[|a| + k + 1..] == buf[|a| + k + 1..]
  {
    var t := Terminated(buf, a);
    assert t == a + (['\0'] + buf[|a| + 1..]);
  }

  /**
   * `snprintf(out + at, size, "%s", s)`: writes at most `size - 1` characters of the C string `s`
   * and a NUL, nothing when `size` is 0, and returns `strlen(s)`, the length it would have written.
   */
  method SnPrintf(out: array<char>, at: nat, size: nat, s: seq<char>) returns (n: nat)
    requires at + size <= out.Length
    modifies out
    ensures n == StrLen(s) && (n == |s| <==> '\0' !in s)
    ensures out[..] == PutCStr(old(out[..]), at, size, s)
  {
    n := StrLen(s);
    if size > 0 {
      var k := Min(n, size - 1);
      forall i | 0 <= i < k {
        out[at + i] := s[i];
      }
      out[at + k] := '\0';
    }
  }
}

/**
 * The raw argument extractor (ngx_http_fancyindex_getarg_str): finds `name=` at the start of a
 * field of a query string that is not NUL-terminated, where fields are separated by `&` or by
 * the HTML character reference `&amp;`, and copies the value, truncated, into a C buffer.
 * Positions in the query are indices into `args`, as the C code's pointers are offsets into it.
 */
module ArgScanner {
  import opened FancyIndexTypes
  import opened CStrings

  /** A key the scanner can look for: a C string (no NUL) without an `&`. */
  predicate ValidName(name: seq<char>)
  {
    '\0' !in name && '&' !in name
  }

  /** The index of the first `&` at or after `p`, or `|args|` when there is none. */
  function AmpersandFrom(args: seq<char>, p: nat): (q: nat)
    requires p <= |args|
    ensures p <= q <= |args|
    ensures q == |args| || args[q] == '&'
    ensures forall i :: p <= i < q ==> args[i] != '&'
    decreases |args| - p
  {
    if p == |args| || args[p] == '&' then p else AmpersandFrom(args, p + 1)
  }

  /** Where the scanner resumes after the field at `p`: past the next `&` and, when more than four characters remain, a following `amp;`. */
  function NextFieldFrom(args: seq<char>, p: nat): (q: nat)
    requires p < |args|
    ensures p < q <= |args|
  {
    var a := AmpersandFrom(args, p);
    var t := if a < |args| then a + 1 else |args|;
    if |args| - t > 4 && args[t..t + 4] == "amp;" then t + 4 else t
  }

  /** The field at `p` is `name=…`, with at least the `=` inside the buffer. */
  predicate KeyAt(args: seq<char>, p: nat, name: seq<char>)
  {
    p + |name| < |args| && args[p..p + |name|] == name && args[p + |name|] == '='
  }

  /** The value of `name` in the fields from `p` on, tested only at field starts; the first matching field wins. */
  function LookupFrom(args: seq<char>, p: nat, name: seq<char>): Option<seq<char>>
    requires p <= |args|
    decreases |args| - p
  {
    if |args| - p > |name| then
      if KeyAt(args, p, name) then Some(args[p + |name| + 1..AmpersandFrom(args, p + |name| + 1)])
      else LookupFrom(args, NextFieldFrom(args, p), name)
    else None
  }

  /** The value of `name` in the query string `args`. */
  function Lookup(args: seq<char>, name: seq<char>): (r: Option<seq<char>>)
    ensures |args| <= |name| ==> r.None?
  {
    LookupFrom(args, 0, name)
  }

  /**
   * ngx_http_fancyindex_getarg_str over the request's arguments `args`. On a match, `out` holds
   * the value as `%s` reads it (up to a NUL it may hold), cut to `maxSize - 1` characters, and a
   * NUL (nothing when `maxSize` is 0); no character of `out` at or beyond `maxSize` changes.
   */
  method GetArgStr(args: seq<char>, name: seq<char>, out: array<char>, maxSize: nat) returns (rc: Status)
    requires ValidName(name)
    requires maxSize <= out.Length
    modifies out
    ensures rc == Ok || rc == NoEnt
    ensures rc == Ok <==> Lookup(args, name).Some?
    ensures rc == NoEnt ==> out[..] == old(out[..])
    ensures rc == Ok ==> out[..] == PutCStr(old(out[..]), 0, maxSize, Lookup(args, name).value)
  {
    if |args| != 0 {
      var npos := 0;
      var epos := |args|;
      var nameLength := |name|;
      while epos - npos > nameLength
        invariant 0 <= npos <= epos
        invariant LookupFrom(args, npos, name) == Lookup(args, name)
        invariant out[..] == old(out[..])
        decreases epos - npos
      {
        if args[npos..npos + nameLength] == name && args[npos + nameLength] == '=' {
          CopyValue(args, name, npos, out, maxSize);
          return Ok;
        }
        npos := NextField(args, npos);
      }
    }
    return NoEnt;
  }

  /** Lines 233-241: the value after `name=` at `p` runs to the next `&`; `snprintf` copies it, truncated, into `out`. */
  method CopyValue(args: seq<char>, name: seq<char>, p: nat, out: array<char>, maxSize: nat)
    requires ValidName(name) && KeyAt(args, p, name)
    requires maxSize <= out.Length
    modifies out
    ensures out[..] == PutCStr(old(out[..]), 0, maxSize, LookupFrom(args, p, name).value)
  {
    var vpos := p + |name| + 1;
    var npos := FieldEnd(args, p);
    ghost var before := out[..];
    var bound, rest := Min(npos - vpos + 1, maxSize), args[vpos..];
    var n := SnPrintf(out, 0, bound, rest);
    ValueCopy(args, name, p, npos - vpos, bound, rest, before, out[..], maxSize);
  }

  /** The bounded `%s` copy from the value start leaves the value `LookupFrom` finds at a matching field;
      `k` is the distance from the value start to the field end. */
  lemma ValueCopy(args: seq<char>, name: seq<char>, p: nat, k: nat, bound: nat, rest: seq<char>,
                  before: seq<char>, after: seq<char>, maxSize: nat)
    requires ValidName(name) && KeyAt(args, p, name) && maxSize <= |before|
    requires k == AmpersandFrom(args, p) - (p + |name| + 1) && bound == Min(k + 1, maxSize)
    requires rest == args[p + |name| + 1..]
    requires after == PutCStr(before, 0, bound, rest)
    ensures after == PutCStr(before, 0, maxSize, LookupFrom(args, p, name).value)
  {
    ValueSpan(args, name, p);
    CopyPrefix(before, maxSize, rest, k, LookupFrom(args, p, name).value, after);
  }

  /** The value at a matching field is the text after `name=` up to the first `&` from the field start. */
  lemma ValueSpan(args: seq<char>, name: seq<char>, p: nat)
    requires ValidName(name) && KeyAt(args, p, name)
    ensures var vpos := p + |name| + 1;
            LookupFrom(args, p, name).value == args[vpos..][..AmpersandFrom(args, p) - vpos]
  {
    var vpos := p + |name| + 1;
    ValueEnd(args, name, p);
    assert args[vpos..][..AmpersandFrom(args, p) - vpos] == args[vpos..AmpersandFrom(args, p)];
  }

  /** The bounded `%s` copy of text whose first `k` characters are the value, with bound `min(k + 1, size)`. */
  lemma CopyPrefix(buf: seq<char>, size: nat, s: seq<char>, k: nat, value: seq<char>, after: seq<char>)
    requires size <= |buf| && k <= |s| && value == s[..k]
    requires after == PutCStr(buf, 0, Min(k + 1, size), s)
    ensures after == PutCStr(buf, 0, size, value)
  {
    assert s == s[..k] + s[k..];
    TruncatedCopy(buf, size, s[..k], s[k..]);
  }

  /** Lines 237-239: the cursor moves to the first `&` at or after `p`, or to the end. */
  method FieldEnd(args: seq<char>, p: nat) returns (npos: nat)
    requires p <= |args|
    ensures npos == AmpersandFrom(args, p)
  {
    npos := p;
    var epos := |args|;
    while npos != epos && args[npos] != '&'
      invariant p <= npos <= epos
      invariant AmpersandFrom(args, npos) == AmpersandFrom(args, p)
    {
      npos := npos + 1;
    }
  }

  /** Lines 250-256: the cursor moves past the next `&` and then past `amp;` when more than four characters remain. */
  method NextField(args: seq<char>, p: nat) returns (npos: nat)
    requires p < |args|
    ensures npos == NextFieldFrom(args, p)
  {
    npos := p;
    var epos := |args|;
    var found := false;
    while npos != epos && !found
      invariant p <= npos <= epos
      invariant !found ==> AmpersandFrom(args, npos) == AmpersandFrom(args, p)
      invariant found ==> npos == AmpersandFrom(args, p) + 1
    {
      found := args[npos] == '&';
      npos := npos + 1;
    }
    if epos - npos > 4 && args[npos..npos + 4] == "amp;" {
      npos := npos + 4;
    }
  }

  /** The first `&` from the start of a matched field is the first `&` after its `=`: the key holds none. */
  lemma ValueEnd(args: seq<char>, name: seq<char>, p: nat)
    requires ValidName(name) && KeyAt(args, p, name)
    ensures AmpersandFrom(args, p) == AmpersandFrom(args, p + |name| + 1)
  {
  }

  /**
   * Copying the value with bound `min(|v| + 1, size)` from text that continues past it writes the
   * C string of `v`, truncated to `size`, whatever follows `v`.
   */
  lemma TruncatedCopy(buf: seq<char>, size: nat, v: seq<char>, more: seq<char>)
    requires size <= |buf|
    ensures PutCStr(buf, 0, Min(|v| + 1, size), v + more) == PutCStr(buf, 0, size, v)
  {
    if size > 0 {
      CTextAppend(v, more);
      assert Fitted(v + more, Min(|v| + 1, size)) == Fitted(v, size);
    }
  }
}

/**
 * The process-wide pool of scratch strings behind ngx_http_fancyindex_format_string, and
 * ngx_http_fancyindex_get_href, which formats a fragment into the slot it claims.
 */
module Pool {
  import opened FancyIndexTypes
  import opened CStrings
  import opened DecimalText
  import opened Href

  /** NGX_FANCY_INDEX_FORMAT_STRING_MAX_LEN: the size of one scratch string. */
  const FormatStringMaxLen: nat := 128

  /** NGX_FANCY_INDEX_FORMAT_STRING_MAX_NUM: the number of scratch strings. */
  const FormatStringMaxNum: nat := 16

  /** A scratch string as the NULL-format path leaves it: every byte 0. */
  function Zeros(n: nat): (z: seq<char>)
    ensures |z| == n && forall i :: 0 <= i < n ==> z[i] == '\0'
  {
    seq(n, _ => '\0')
  }

  /** The index a claim moves the cursor to from `ix`. */
  function Claim(ix: nat): (next: nat)
    ensures next < FormatStringMaxNum
  {
    (ix + 1) % FormatStringMaxNum
  }

  /** The cursor after `k` claims starting from `ix`. */
  function ClaimsFrom(ix: nat, k: nat): (r: nat)
  {
    if k == 0 then ix else Claim(ClaimsFrom(ix, k - 1))
  }

  /** After `k` claims from a valid cursor `ix` the cursor is `(ix + k) mod 16`. */
  lemma {:induction false} ClaimsFromIs(ix: nat, k: nat)
    requires ix < FormatStringMaxNum
    ensures ClaimsFrom(ix, k) == (ix + k) % FormatStringMaxNum
  {
    if k > 0 {
      ClaimsFromIs(ix, k - 1);
    }
  }

  /**
   * The slot one claim hands out is not handed out again by any of the next 15 claims, and
   * the 16th claim after it hands it out again.
   */
  lemma ClaimsDoNotRepeat(ix: nat, k: nat)
    requires ix < FormatStringMaxNum && 1 <= k <= FormatStringMaxNum
    ensures ClaimsFrom(ix, 1 + k) == ClaimsFrom(ix, 1) <==> k == FormatStringMaxNum
  {
    ClaimsFromIs(ix, 1 + k);
    ClaimsFromIs(ix, 1);
    var n := ix + 1 + k;
    if n < FormatStringMaxNum {
      assert n % FormatStringMaxNum == n;
    } else if n < 2 * FormatStringMaxNum {
      assert n % FormatStringMaxNum == n - FormatStringMaxNum;
    } else {
      assert n % FormatStringMaxNum == 0;
    }
  }

  /** The bound `v` prints in at most 15 characters, as every value getarg_num yields does. */
  predicate BoundFits(v: int)
  {
    |DecText(v)| <= 15
  }

  predicate BoundsFit(f: FilterCriteria)
  {
    BoundFits(f.dirsCountMax) && BoundFits(f.filesCountMax)
    && BoundFits(f.mTimeLessOrEqualMs) && BoundFits(f.mTimeGreaterOrEqualMs)
  }

  /** A bound adds at most its separator, its key, `=` and 15 characters. */
  lemma AddBoundLength(written: seq<char>, key: seq<char>, v: int)
    requires BoundFits(v)
    ensures |AddBound(written, key, v)| <= |written| + 5 + |key| + 1 + 15
  {
  }

  /**
   * With bounds that fit, the fragment get_href formats is at most 12 + 25 + 26 + 23 + 23 = 109
   * characters long, so it fits a 128-byte scratch string untruncated.
   */
  lemma HrefFits(sort: SortCriterion, f: FilterCriteria)
    requires BoundsFit(f)
    ensures 0 < |UrlArgs(Some(sort), Some(f))| <= 109
  {
    var s0 := SortArgs(Some(sort));
    var s1 := AddBound(s0, "dirs", f.dirsCountMax);
    var s2 := AddBound(s1, "files", f.filesCountMax);
    var s3 := AddBound(s2, "le", f.mTimeLessOrEqualMs);
    AddBoundLength(s0, "dirs", f.dirsCountMax);
    AddBoundLength(s1, "files", f.filesCountMax);
    AddBoundLength(s2, "le", f.mTimeLessOrEqualMs);
    AddBoundLength(s3, "ge", f.mTimeGreaterOrEqualMs);
  }

  /** What get_href leaves in its slot: the fragment as a C string over a zeroed scratch string. */
  function HrefText(sort: SortCriterion, f: FilterCriteria): (t: seq<char>)
    requires BoundsFit(f)
    ensures |t| == FormatStringMaxLen
  {
    HrefFits(sort, f);
    Terminated(Zeros(FormatStringMaxLen), UrlArgs(Some(sort), Some(f)))
  }

  /** The text get_href leaves is a 128-byte C string whose `strlen` is the fragment's length. */
  lemma HrefTextIsCString(sort: SortCriterion, f: FilterCriteria)
    requires BoundsFit(f)
    ensures |HrefText(sort, f)| == FormatStringMaxLen
    ensures StrLen(HrefText(sort, f)) == |UrlArgs(Some(sort), Some(f))|
    ensures HrefText(sort, f)[..|UrlArgs(Some(sort), Some(f))|] == UrlArgs(Some(sort), Some(f))
  {
    var q := UrlArgs(Some(sort), Some(f));
    HrefFits(sort, f);
    UrlArgsHasNoNul(Some(sort), Some(f));
    StrLenTerminated(Zeros(FormatStringMaxLen), q);
  }

  /** The pool: sixteen 128-byte scratch strings and the cursor of the last one claimed. */
  class ScratchPool {
    var stringBufferIx: nat
    const stringBuffers: seq<array<char>>

    ghost predicate Valid()
      reads this
    {
      stringBufferIx < FormatStringMaxNum
      && |stringBuffers| == FormatStringMaxNum
      && (forall i :: 0 <= i < |stringBuffers| ==> stringBuffers[i].Length == FormatStringMaxLen)
      && (forall i, j :: 0 <= i < j < |stringBuffers| ==> stringBuffers[i] != stringBuffers[j])
    }

    /** The pool as the program starts: static storage, so the cursor and every byte are 0. */
    constructor()
      ensures Valid() && stringBufferIx == 0
      ensures forall i :: 0 <= i < |stringBuffers| ==> fresh(stringBuffers[i])
      ensures forall i :: 0 <= i < |stringBuffers| ==> stringBuffers[i][..] == Zeros(FormatStringMaxLen)
    {
      var buffers: seq<array<char>> := [];
      while |buffers| < FormatStringMaxNum
        invariant |buffers| <= FormatStringMaxNum
        invariant forall i :: 0 <= i < |buffers| ==> fresh(buffers[i])
        invariant forall i :: 0 <= i < |buffers| ==> buffers[i][..] == Zeros(FormatStringMaxLen)
        invariant forall i, j :: 0 <= i < j < |buffers| ==> buffers[i] != buffers[j]
      {
        var b := new char[FormatStringMaxLen](_ => '\0');
        buffers := buffers + [b];
      }
      stringBufferIx := 0;
      stringBuffers := buffers;
    }

    /**
     * ngx_http_fancyindex_format_string(NULL): advances the cursor by one modulo 16 and returns
     * that slot with all 128 bytes zeroed; no other slot changes.
     */
    method FormatString() returns (retVal: array<char>)
      requires Valid()
      modifies this`stringBufferIx, stringBuffers[Claim(stringBufferIx)]
      ensures Valid()
      ensures stringBufferIx == Claim(old(stringBufferIx))
      ensures retVal == stringBuffers[stringBufferIx]
      ensures retVal[..] == Zeros(FormatStringMaxLen)
      ensures forall i :: 0 <= i < |stringBuffers| && i != stringBufferIx ==>
                stringBuffers[i][..] == old(stringBuffers[i][..])
    {
      stringBufferIx := (stringBufferIx + 1) % FormatStringMaxNum;
      retVal := stringBuffers[stringBufferIx];
      forall i | 0 <= i < FormatStringMaxLen {
        retVal[i] := '\0';
      }
    }

    /**
     * ngx_http_fancyindex_get_href: claims a zeroed slot and formats the sort and filter into it;
     * the slot then holds the whole fragment as a C string, and no other slot changes.
     */
    method GetHref(sort: SortCriterion, filter: FilterCriteria) returns (href: array<char>)
      requires Valid() && BoundsFit(filter)
      modifies this`stringBufferIx, stringBuffers[Claim(stringBufferIx)]
      ensures Valid()
      ensures stringBufferIx == Claim(old(stringBufferIx))
      ensures href == stringBuffers[stringBufferIx]
      ensures href[..] == HrefText(sort, filter)
      ensures forall i :: 0 <= i < |stringBuffers| && i != stringBufferIx ==>
                stringBuffers[i][..] == old(stringBuffers[i][..])
    {
      href := FormatString();
      HrefFits(sort, filter);
      var rc := GetUrlArgs(Some(sort), Some(filter), href, FormatStringMaxLen);
    }
  }
}

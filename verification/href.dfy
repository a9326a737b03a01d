/**
 * The query serialiser ngx_http_fancyindex_get_url_args: the fragment it writes for a sort and
 * a filter, and the method that writes it into a C buffer one bounded `snprintf` at a time.
 */
module Href {
  import opened FancyIndexTypes
  import opened CStrings
  import opened DecimalText

  /** The literal get_url_args writes for each sort criterion. */
  function SortLiteral(s: SortCriterion): (t: seq<char>)
    ensures |t| == 12 && t[..3] == "?C=" && t[3] == s.Key() && t[4..11] == "&amp;O=" && t[11] == s.Order()
  {
    match s
    case Name => "?C=N&amp;O=A"
    case Size => "?C=S&amp;O=A"
    case Date => "?C=M&amp;O=A"
    case NameDesc => "?C=N&amp;O=D"
    case SizeDesc => "?C=S&amp;O=D"
    case DateDesc => "?C=M&amp;O=D"
  }

  /** The separator before a field: `?` when nothing has been written yet, `&amp;` otherwise. */
  function Separator(written: seq<char>): (sep: seq<char>)
    ensures sep == "?" <==> written == []
    ensures sep != [] && '\0' !in sep && '=' !in sep
  {
    if written == [] then "?" else "&amp;"
  }

  /** The piece a bound adds after `written`: separator, key, `=` and the bound as `%ld` prints it. */
  function BoundPiece(written: seq<char>, key: seq<char>, v: int): (piece: seq<char>)
    ensures |piece| == |Separator(written)| + |key| + 1 + |DecText(v)|
    ensures '\0' !in key ==> '\0' !in piece
  {
    Separator(written) + key + "=" + DecText(v)
  }

  /** `written` followed by the bound's piece, unless the bound is the "unset" sentinel. */
  function AddBound(written: seq<char>, key: seq<char>, v: int): (r: seq<char>)
    ensures |written| <= |r| && r[..|written|] == written
    ensures r != [] ==> r[0] == '?' || (written != [] && r[0] == written[0])
  {
    if v == Unset then written else written + BoundPiece(written, key, v)
  }

  /** What get_url_args writes for the sort criterion: its literal, or nothing. */
  function SortArgs(sort: Option<SortCriterion>): (s: seq<char>)
    ensures s == [] <==> sort.None?
    ensures |s| <= 12
  {
    if sort.Some? then SortLiteral(sort.value) else []
  }

  /** `written` followed by the filter's `dirs`, `files`, `le` and `ge` bounds, those that are set. */
  function FilterArgs(written: seq<char>, f: FilterCriteria): (r: seq<char>)
    ensures |written| <= |r| && r[..|written|] == written
    ensures r != [] ==> r[0] == '?' || (written != [] && r[0] == written[0])
    ensures r == written <==> AllUnset(f)
  {
    AddBound(AddBound(AddBound(AddBound(written,
      "dirs", f.dirsCountMax),
      "files", f.filesCountMax),
      "le", f.mTimeLessOrEqualMs),
      "ge", f.mTimeGreaterOrEqualMs)
  }

  /** The fragment get_url_args produces: the sort literal, then `dirs`, `files`, `le`, `ge` when set. */
  function UrlArgs(sort: Option<SortCriterion>, filter: Option<FilterCriteria>): (q: seq<char>)
    ensures q != [] ==> q[0] == '?'
    ensures q == [] <==> sort.None? && (filter.None? || AllUnset(filter.value))
  {
    match filter
    case None => SortArgs(sort)
    case Some(f) => FilterArgs(SortArgs(sort), f)
  }

  /** The fragment holds no NUL, so `strlen` finds its end. */
  lemma UrlArgsHasNoNul(sort: Option<SortCriterion>, filter: Option<FilterCriteria>)
    ensures '\0' !in UrlArgs(sort, filter)
  {
    if sort.Some? {
      SortLiteralHasNoNul(sort.value);
    }
    if filter.Some? {
      FilterArgsHasNoNul(SortArgs(sort), filter.value);
    }
  }

  lemma SortLiteralHasNoNul(s: SortCriterion)
    ensures '\0' !in SortLiteral(s)
  {
    match s
    case Name =>
    case Size =>
    case Date =>
    case NameDesc =>
    case SizeDesc =>
    case DateDesc =>
  }

  lemma FilterArgsHasNoNul(written: seq<char>, f: FilterCriteria)
    requires '\0' !in written
    ensures '\0' !in FilterArgs(written, f)
  {
    var s1 := AddBound(written, "dirs", f.dirsCountMax);
    var s2 := AddBound(s1, "files", f.filesCountMax);
    var s3 := AddBound(s2, "le", f.mTimeLessOrEqualMs);
    AddBoundHasNoNul(written, "dirs", f.dirsCountMax);
    AddBoundHasNoNul(s1, "files", f.filesCountMax);
    AddBoundHasNoNul(s2, "le", f.mTimeLessOrEqualMs);
    AddBoundHasNoNul(s3, "ge", f.mTimeGreaterOrEqualMs);
  }

  lemma AddBoundHasNoNul(written: seq<char>, key: seq<char>, v: int)
    requires '\0' !in written && '\0' !in key
    ensures '\0' !in AddBound(written, key, v)
  {
  }

  predicate AllUnset(f: FilterCriteria)
  {
    f.dirsCountMax == Unset && f.filesCountMax == Unset
    && f.mTimeLessOrEqualMs == Unset && f.mTimeGreaterOrEqualMs == Unset
  }

  /** The buffer `buf` once the C string `s` has been written over its start; untouched when `s` is empty. */
  function Written(buf: seq<char>, s: seq<char>): seq<char>
    requires |s| < |buf| || s == []
  {
    if s == [] then buf else Terminated(buf, s)
  }

  /** One more `snprintf` at the NUL of what was written so far extends the string, when it fits. */
  lemma WriteStep(buf: seq<char>, acc: seq<char>, piece: seq<char>, maxSize: nat)
    requires piece != [] && '\0' !in piece && |acc| + |piece| < maxSize <= |buf|
    ensures PutCStr(Written(buf, acc), |acc|, maxSize - |acc|, piece) == Written(buf, acc + piece)
  {
    if acc == [] {
      assert acc + piece == piece;
      PutCStrWhole(buf, 0, maxSize, piece);
    } else {
      TerminatedAppend(buf, acc, maxSize - |acc|, piece);
    }
  }

  /**
   * ngx_http_fancyindex_get_url_args: a NULL `out` is refused; otherwise, when the whole fragment
   * fits in `maxSize`, `out` holds it as a C string and nothing after its NUL changes.
   */
  method GetUrlArgs(sort: Option<SortCriterion>, filter: Option<FilterCriteria>, out: array?<char>, maxSize: nat)
    returns (rc: Status)
    requires out != null ==> maxSize <= out.Length
    requires out != null ==> UrlArgs(sort, filter) == [] || |UrlArgs(sort, filter)| < maxSize
    modifies out
    ensures out == null ==> rc == Inval
    ensures out != null ==> rc == Ok && out[..] == Written(old(out[..]), UrlArgs(sort, filter))
  {
    if out == null {
      return Inval;
    }
    ghost var buf := out[..];
    ghost var acc := SortArgs(sort);
    var npos: nat := 0;
    if sort.Some? {
      npos := PrintSort(out, maxSize, sort.value, buf);
    }
    if filter.Some? {
      npos := PrintFilter(out, maxSize, npos, filter.value, buf, acc);
    }
    return Ok;
  }

  /** The four bounds of get_url_args, each written after what is already in `out` when it is set. */
  method PrintFilter(out: array<char>, maxSize: nat, npos: nat, f: FilterCriteria,
                     ghost buf: seq<char>, ghost acc: seq<char>) returns (next: nat)
    requires maxSize <= out.Length == |buf| && npos == |acc|
    requires FilterArgs(acc, f) == acc || |FilterArgs(acc, f)| < maxSize
    requires acc == [] || |acc| < |buf|
    requires out[..] == Written(buf, acc)
    modifies out
    ensures next == |FilterArgs(acc, f)|
    ensures out[..] == Written(buf, FilterArgs(acc, f))
  {
    ghost var s1 := AddBound(acc, "dirs", f.dirsCountMax);
    ghost var s2 := AddBound(s1, "files", f.filesCountMax);
    ghost var s3 := AddBound(s2, "le", f.mTimeLessOrEqualMs);
    assert AddBound(s3, "ge", f.mTimeGreaterOrEqualMs) == FilterArgs(acc, f);
    next := npos;
    if f.dirsCountMax != Unset {
      next := PrintBound(out, maxSize, next, "dirs", f.dirsCountMax, buf, acc);
    }
    if f.filesCountMax != Unset {
      next := PrintBound(out, maxSize, next, "files", f.filesCountMax, buf, s1);
    }
    if f.mTimeLessOrEqualMs != Unset {
      next := PrintBound(out, maxSize, next, "le", f.mTimeLessOrEqualMs, buf, s2);
    }
    if f.mTimeGreaterOrEqualMs != Unset {
      next := PrintBound(out, maxSize, next, "ge", f.mTimeGreaterOrEqualMs, buf, s3);
    }
  }

  /** The sort literal of get_url_args, written at the start of `out`. */
  method PrintSort(out: array<char>, maxSize: nat, sort: SortCriterion, ghost buf: seq<char>) returns (next: nat)
    requires maxSize <= out.Length == |buf| && |SortLiteral(sort)| < maxSize
    requires out[..] == buf
    modifies out
    ensures next == |SortLiteral(sort)|
    ensures out[..] == Written(buf, SortLiteral(sort))
  {
    SortLiteralHasNoNul(sort);
    WriteStep(buf, [], SortLiteral(sort), maxSize);
    assert [] + SortLiteral(sort) == SortLiteral(sort);
    next := SnPrintf(out, 0, maxSize, SortLiteral(sort));
  }

  /**
   * One bound of get_url_args: `snprintf` of the separator, the key, `=` and the value at the
   * current end `npos` of what has been written so far (`acc`), advancing `npos` past it.
   */
  method PrintBound(out: array<char>, maxSize: nat, npos: nat, key: seq<char>, v: int,
                    ghost buf: seq<char>, ghost acc: seq<char>) returns (next: nat)
    requires maxSize <= out.Length == |buf| && npos == |acc| && '\0' !in key
    requires |acc + BoundPiece(acc, key, v)| < maxSize
    requires out[..] == Written(buf, acc)
    modifies out
    ensures next == |acc + BoundPiece(acc, key, v)|
    ensures out[..] == Written(buf, acc + BoundPiece(acc, key, v))
  {
    var separator := if npos == 0 then "?" else "&amp;";
    assert separator == Separator(acc);
    var piece := separator + key + "=" + DecText(v);
    assert piece == BoundPiece(acc, key, v) && '\0' !in piece;
    WriteStep(buf, acc, piece, maxSize);
    var n := SnPrintf(out, npos, maxSize - npos, piece);
    next := npos + n;
  }
}

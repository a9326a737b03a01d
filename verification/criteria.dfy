/**
 * The numeric reader (ngx_http_fancyindex_getarg_num) and the criteria resolvers
 * (get_sort_criteria, get_filter_criteria) built on the raw argument extractor.
 */
module Criteria {
  import opened FancyIndexTypes
  import opened CStrings
  import opened ArgScanner
  import opened DecimalText
  import ScannerProperties

  /** The size of getarg_num's value buffer: at most 15 characters of a value are looked at. */
  const NumBufferSize: nat := 16

  /**
   * The C string getarg_num's 16-byte buffer receives for the value `v`: at most its first 15
   * characters, up to a NUL it may hold.
   */
  function NumText(v: seq<char>): (t: seq<char>)
    ensures |t| < NumBufferSize && |t| <= |v| && t == v[..|t|] && '\0' !in t
    ensures '\0' !in v && |v| < NumBufferSize ==> t == v
  {
    Fitted(v, NumBufferSize)
  }

  /**
   * What getarg_num returns: the default when the key is absent or its (truncated) value fails the
   * check, otherwise the value `atol` reads. A result other than the default lies strictly between
   * -10^14 and 10^15, so `%ld` prints it in at most 15 characters.
   */
  function ArgNum(args: seq<char>, name: seq<char>, defaultValue: int): (r: int)
    ensures r == defaultValue || -Pow10(14) < r < Pow10(15)
    ensures Lookup(args, name).None? ==> r == defaultValue
  {
    match Lookup(args, name)
    case None => defaultValue
    case Some(v) =>
      var t := NumText(v);
      if NumberText(t) then ParseBound(t); ParseDecimal(t) else defaultValue
  }

  /** ngx_http_fancyindex_getarg_num: reads `name` into a 16-byte buffer, checks it character by character and converts it. */
  method GetArgNum(args: seq<char>, name: seq<char>, defaultValue: int) returns (r: int)
    requires ValidName(name)
    ensures r == ArgNum(args, name, defaultValue)
  {
    var buffer := new char[NumBufferSize](_ => '\0');
    ghost var zeros := buffer[..];
    var retVal := defaultValue;
    var rc := GetArgStr(args, name, buffer, NumBufferSize);
    if rc == Ok {
      ghost var t := NumText(Lookup(args, name).value);
      PutCStrAtStart(zeros, NumBufferSize, Lookup(args, name).value);
      assert buffer[..] == Terminated(zeros, t);
      TerminatedParts(zeros, t, 0);
      var npos := 0;
      var epos := StrLen(buffer[..]);
      assert buffer[..epos] == t;
      while npos != epos
        invariant 0 <= npos <= epos
        invariant NumberText(buffer[..npos])
      {
        if !IsDigit(buffer[npos]) && !(npos == 0 && buffer[npos] == '-') {
          return retVal;
        }
        npos := npos + 1;
        assert buffer[..npos] == buffer[..npos - 1] + [buffer[npos - 1]];
      }
      retVal := ParseDecimal(buffer[..epos]);
    }
    return retVal;
  }

  /** The first character of the C string a 2-byte buffer receives for `name`; NUL when the key is absent or empty. */
  function FirstChar(args: seq<char>, name: seq<char>): (c: char)
    ensures Lookup(args, name).None? ==> c == '\0'
    ensures c != '\0' ==>
              Lookup(args, name).Some? && |Lookup(args, name).value| > 0 && Lookup(args, name).value[0] == c
  {
    match Lookup(args, name)
    case Some(v) => if |v| > 0 then v[0] else '\0'
    case None => '\0'
  }

  /**
   * What get_sort_criteria returns: `C` starting with `M`, `S` or `N` selects that key, and then
   * `O` starting with `D` selects the descending order; any other `C` leaves the default.
   */
  function ResolveSort(args: seq<char>, defaultSort: SortCriterion): (r: SortCriterion)
    ensures FirstChar(args, "C") in "MSN" ==>
              r.Key() == FirstChar(args, "C") && (r.IsDescending() <==> FirstChar(args, "O") == 'D')
    ensures FirstChar(args, "C") !in "MSN" ==> r == defaultSort
  {
    var descending := FirstChar(args, "O") == 'D';
    match FirstChar(args, "C")
    case 'M' => if descending then DateDesc else Date
    case 'S' => if descending then SizeDesc else Size
    case 'N' => if descending then NameDesc else Name
    case _ => defaultSort
  }

  /** ngx_http_fancyindex_get_sort_criteria: reads `C` and `O` into 2-byte buffers and switches on their first character. */
  method GetSortCriteria(args: seq<char>, defaultSort: SortCriterion) returns (r: SortCriterion)
    ensures r == ResolveSort(args, defaultSort)
  {
    r := defaultSort;
    var sortBy := new char[2](_ => '\0');
    var sortOrder := new char[2](_ => '\0');
    var rcBy := GetArgStr(args, "C", sortBy, 2);
    var rcOrder := GetArgStr(args, "O", sortOrder, 2);
    assert sortBy[0] == FirstChar(args, "C");
    assert sortOrder[0] == FirstChar(args, "O");
    match sortBy[0]
    case 'M' => r := if sortOrder[0] == 'D' then DateDesc else Date;
    case 'S' => r := if sortOrder[0] == 'D' then SizeDesc else Size;
    case 'N' => r := if sortOrder[0] == 'D' then NameDesc else Name;
    case _ =>
  }

  /** What get_filter_criteria returns: the four bounds as getarg_num reads them with default -1, everything else 0. */
  function ResolveFilter(args: seq<char>): (f: FilterCriteria)
    ensures Lookup(args, "dirs").None? ==> f.dirsCountMax == Unset
    ensures Lookup(args, "files").None? ==> f.filesCountMax == Unset
    ensures Lookup(args, "le").None? ==> f.mTimeLessOrEqualMs == Unset
    ensures Lookup(args, "ge").None? ==> f.mTimeGreaterOrEqualMs == Unset
    ensures f.mTimeLessThanMs == 0 && f.mTimeGreaterThanMs == 0 && f.dirsCounter == 0 && f.filesCounter == 0
  {
    FilterCriteria(
      dirsCountMax := ArgNum(args, "dirs", Unset),
      filesCountMax := ArgNum(args, "files", Unset),
      mTimeLessThanMs := 0,
      mTimeGreaterThanMs := 0,
      mTimeLessOrEqualMs := ArgNum(args, "le", Unset),
      mTimeGreaterOrEqualMs := ArgNum(args, "ge", Unset),
      dirsCounter := 0,
      filesCounter := 0)
  }

  /** ngx_http_fancyindex_get_filter_criteria: a zeroed record whose four bounds come from getarg_num. */
  method GetFilterCriteria(args: seq<char>) returns (r: FilterCriteria)
    ensures r == ResolveFilter(args)
  {
    r := FilterCriteria(0, 0, 0, 0, 0, 0, 0, 0);
    var dirs := GetArgNum(args, "dirs", Unset);
    r := r.(dirsCountMax := dirs);
    var files := GetArgNum(args, "files", Unset);
    r := r.(filesCountMax := files);
    var le := GetArgNum(args, "le", Unset);
    r := r.(mTimeLessOrEqualMs := le);
    var ge := GetArgNum(args, "ge", Unset);
    r := r.(mTimeGreaterOrEqualMs := ge);
  }
}

/**
 * The serialiser and the parsers agree: the fragment get_url_args writes for a sort and a filter,
 * read back by get_sort_criteria and get_filter_criteria, yields that sort and those bounds.
 */
module RoundTrip {
  import opened FancyIndexTypes
  import opened ArgScanner
  import opened ScannerProperties
  import opened DecimalText
  import opened Criteria
  import opened Href
  import opened Pool

  /** A field `key=value` of a query. */
  function Field(key: seq<char>, value: seq<char>): seq<char>
  {
    key + "=" + value
  }

  /** The value of the first pair whose key is `name`. */
  function Assoc(pairs: seq<(seq<char>, seq<char>)>, name: seq<char>): Option<seq<char>>
  {
    if |pairs| == 0 then None
    else if pairs[0].0 == name then Some(pairs[0].1)
    else Assoc(pairs[1..], name)
  }

  /** The fields of the pairs, in order. */
  function FieldsOf(pairs: seq<(seq<char>, seq<char>)>): (fields: seq<seq<char>>)
    ensures |fields| == |pairs|
  {
    if |pairs| == 0 then [] else [Field(pairs[0].0, pairs[0].1)] + FieldsOf(pairs[1..])
  }

  /** The pair a bound contributes: none when it is unset, `key` and its `%ld` text otherwise. */
  function BoundPair(key: seq<char>, v: int): seq<(seq<char>, seq<char>)>
  {
    if v == Unset then [] else [(key, DecText(v))]
  }

  /** The key/value pairs get_url_args writes for a sort and a filter, in order. */
  function Pairs(sort: SortCriterion, f: FilterCriteria): seq<(seq<char>, seq<char>)>
  {
    [("C", [sort.Key()]), ("O", [sort.Order()])]
    + BoundPair("dirs", f.dirsCountMax)
    + BoundPair("files", f.filesCountMax)
    + BoundPair("le", f.mTimeLessOrEqualMs)
    + BoundPair("ge", f.mTimeGreaterOrEqualMs)
  }

  /** Neither a key nor the name holds `=`, so a field is `name=…` exactly when its key is `name`. */
  lemma MatchesKey(key: seq<char>, value: seq<char>, name: seq<char>)
    requires '=' !in key && '=' !in name
    ensures Matches(Field(key, value), name) <==> key == name
  {
    var f := Field(key, value);
    if key == name {
      assert f[..|name|] == key;
    } else if |name| < |key| {
      assert f[|name|] == key[|name|];
    } else if |name| == |key| {
      assert f[..|name|] == key;
    } else if |name| < |f| {
      assert f[..|name|][|key|] == '=';
    }
  }

  /** On fields built from pairs whose keys hold no `=`, the first match is the association lookup. */
  lemma {:induction false} FirstMatchAssoc(pairs: seq<(seq<char>, seq<char>)>, name: seq<char>)
    requires '=' !in name
    requires forall i :: 0 <= i < |pairs| ==> '=' !in pairs[i].0
    ensures FirstMatch(FieldsOf(pairs), name) == Assoc(pairs, name)
  {
    if |pairs| > 0 {
      var fields := FieldsOf(pairs);
      MatchesKey(pairs[0].0, pairs[0].1, name);
      if pairs[0].0 == name {
        assert fields[0] == name + "=" + pairs[0].1;
        assert fields[0][|name| + 1..] == pairs[0].1;
      } else {
        assert fields[1..] == FieldsOf(pairs[1..]);
        FirstMatchAssoc(pairs[1..], name);
      }
    }
  }

  /** Appending one field to a nonempty list appends the separator and the field. */
  lemma {:induction false} JoinAppend(fields: seq<seq<char>>, sep: seq<char>, x: seq<char>)
    requires |fields| > 0
    ensures JoinFields(fields + [x], sep) == JoinFields(fields, sep) + sep + x
  {
    if |fields| > 1 {
      assert (fields + [x])[1..] == fields[1..] + [x];
      JoinAppend(fields[1..], sep, x);
    } else {
      assert (fields + [x])[1..] == [x];
    }
  }

  lemma {:induction false} FieldAt(pairs: seq<(seq<char>, seq<char>)>, i: nat)
    requires i < |pairs|
    ensures FieldsOf(pairs)[i] == Field(pairs[i].0, pairs[i].1)
  {
    if i > 0 {
      FieldAt(pairs[1..], i - 1);
    }
  }

  lemma {:induction false} FieldsOfAppend(pairs: seq<(seq<char>, seq<char>)>, p: (seq<char>, seq<char>))
    ensures FieldsOf(pairs + [p]) == FieldsOf(pairs) + [Field(p.0, p.1)]
  {
    if |pairs| > 0 {
      assert (pairs + [p])[1..] == pairs[1..] + [p];
      FieldsOfAppend(pairs[1..], p);
    }
  }

  /** A bound that is set extends a nonempty fragment with `&amp;` and its field. */
  lemma AddBoundJoin(pairs: seq<(seq<char>, seq<char>)>, key: seq<char>, v: int)
    requires |pairs| > 0
    ensures AddBound("?" + JoinFields(FieldsOf(pairs), "&amp;"), key, v)
            == "?" + JoinFields(FieldsOf(pairs + BoundPair(key, v)), "&amp;")
  {
    if v != Unset {
      AddSetBoundJoin(pairs, key, v);
    } else {
      assert pairs + BoundPair(key, v) == pairs;
    }
  }

  lemma AddSetBoundJoin(pairs: seq<(seq<char>, seq<char>)>, key: seq<char>, v: int)
    requires |pairs| > 0 && v != Unset
    ensures AddBound("?" + JoinFields(FieldsOf(pairs), "&amp;"), key, v)
            == "?" + JoinFields(FieldsOf(pairs + [(key, DecText(v))]), "&amp;")
  {
    var fields := FieldsOf(pairs);
    var w := "?" + JoinFields(fields, "&amp;");
    var x := Field(key, DecText(v));
    FieldsOfAppend(pairs, (key, DecText(v)));
    JoinAppend(fields, "&amp;", x);
    AddBoundIsField(w, key, v);
    PrefixAppend(JoinFields(fields, "&amp;"), x);
  }

  lemma PrefixAppend(j: seq<char>, x: seq<char>)
    ensures ("?" + j) + ("&amp;" + x) == "?" + (j + "&amp;" + x)
  {
  }

  lemma AddBoundIsField(w: seq<char>, key: seq<char>, v: int)
    requires w != [] && v != Unset
    ensures AddBound(w, key, v) == w + ("&amp;" + Field(key, DecText(v)))
  {
  }

  /** Each sort literal is `?` and the fields `C=` and `O=` of its letters, joined by `&amp;`. */
  lemma SortLiteralFields(sort: SortCriterion)
    ensures SortLiteral(sort) == "?" + (Field("C", [sort.Key()]) + "&amp;" + Field("O", [sort.Order()]))
  {
  }

  lemma SortFields(sort: SortCriterion)
    ensures var p0 := [("C", [sort.Key()]), ("O", [sort.Order()])];
            JoinFields(FieldsOf(p0), "&amp;") == Field("C", [sort.Key()]) + "&amp;" + Field("O", [sort.Order()])
  {
    var p0 := [("C", [sort.Key()]), ("O", [sort.Order()])];
    assert p0[1..][1..] == [];
    assert FieldsOf(p0) == [Field("C", [sort.Key()]), Field("O", [sort.Order()])];
  }

  /** The fragment get_href formats is `?` followed by the fields of the pairs joined by `&amp;`. */
  lemma UrlArgsAsFields(sort: SortCriterion, f: FilterCriteria)
    ensures UrlArgs(Some(sort), Some(f)) == "?" + JoinFields(FieldsOf(Pairs(sort, f)), "&amp;")
  {
    var p0 := [("C", [sort.Key()]), ("O", [sort.Order()])];
    var p1 := p0 + BoundPair("dirs", f.dirsCountMax);
    var p2 := p1 + BoundPair("files", f.filesCountMax);
    var p3 := p2 + BoundPair("le", f.mTimeLessOrEqualMs);
    SortLiteralFields(sort);
    SortFields(sort);
    AddBoundJoin(p0, "dirs", f.dirsCountMax);
    AddBoundJoin(p1, "files", f.filesCountMax);
    AddBoundJoin(p2, "le", f.mTimeLessOrEqualMs);
    AddBoundJoin(p3, "ge", f.mTimeGreaterOrEqualMs);
  }

  /** The query get_sort_criteria and get_filter_criteria see when handed the fragment without its `?`. */
  function HrefQuery(sort: SortCriterion, f: FilterCriteria): seq<char>
  {
    var q := UrlArgs(Some(sort), Some(f));
    q[1..]
  }

  /** The keys of the pairs are nonempty and hold neither `=` nor `&`; their values hold no `&`. */
  predicate PlainPairs(pairs: seq<(seq<char>, seq<char>)>)
  {
    forall i :: 0 <= i < |pairs| ==> pairs[i].0 != [] && '=' !in pairs[i].0 && '&' !in pairs[i].0 && '&' !in pairs[i].1
  }

  lemma PairsArePlain(sort: SortCriterion, f: FilterCriteria)
    ensures PlainPairs(Pairs(sort, f))
  {
  }

  /** Plain pairs make fields that `&amp;` separates well. */
  lemma PlainWellSeparated(pairs: seq<(seq<char>, seq<char>)>)
    requires PlainPairs(pairs)
    ensures WellSeparated(FieldsOf(pairs), "&amp;")
  {
    var fields := FieldsOf(pairs);
    forall i | 0 <= i < |fields| ensures '&' !in fields[i] && fields[i] != [] {
      FieldAt(pairs, i);
    }
  }

  /** Every argument of the fragment is the value of its first pair with that key. */
  lemma LookupHrefQuery(sort: SortCriterion, f: FilterCriteria, name: seq<char>)
    requires ValidName(name) && '=' !in name
    ensures Lookup(HrefQuery(sort, f), name) == Assoc(Pairs(sort, f), name)
  {
    var pairs := Pairs(sort, f);
    UrlArgsAsFields(sort, f);
    PairsArePlain(sort, f);
    PlainWellSeparated(pairs);
    LookupJoined(FieldsOf(pairs), "&amp;", name);
    FirstMatchAssoc(pairs, name);
  }

  /** Looking a key up in two lists one after the other. */
  lemma {:induction false} AssocAppend(a: seq<(seq<char>, seq<char>)>, b: seq<(seq<char>, seq<char>)>, name: seq<char>)
    ensures Assoc(a + b, name) == if Assoc(a, name).Some? then Assoc(a, name) else Assoc(b, name)
  {
    if |a| > 0 {
      assert (a + b)[1..] == a[1..] + b;
      AssocAppend(a[1..], b, name);
    } else {
      assert a + b == b;
    }
  }

  /** What the fragment holds for a bound: its `%ld` text when it is set, nothing when it is unset. */
  function BoundText(v: int): Option<seq<char>>
  {
    if v == Unset then None else Some(DecText(v))
  }

  /** The pairs hold the sort letters under `C` and `O` and each bound under its own key. */
  lemma AssocPairs(sort: SortCriterion, f: FilterCriteria)
    ensures Assoc(Pairs(sort, f), "C") == Some([sort.Key()])
    ensures Assoc(Pairs(sort, f), "O") == Some([sort.Order()])
    ensures Assoc(Pairs(sort, f), "dirs") == BoundText(f.dirsCountMax)
    ensures Assoc(Pairs(sort, f), "files") == BoundText(f.filesCountMax)
    ensures Assoc(Pairs(sort, f), "le") == BoundText(f.mTimeLessOrEqualMs)
    ensures Assoc(Pairs(sort, f), "ge") == BoundText(f.mTimeGreaterOrEqualMs)
  {
    AssocPairsAt(sort, f, "C");
    AssocPairsAt(sort, f, "O");
    AssocPairsAt(sort, f, "dirs");
    AssocPairsAt(sort, f, "files");
    AssocPairsAt(sort, f, "le");
    AssocPairsAt(sort, f, "ge");
  }

  lemma AssocPairsAt(sort: SortCriterion, f: FilterCriteria, name: seq<char>)
    ensures Assoc(Pairs(sort, f), name)
            == if name == "C" then Some([sort.Key()])
               else if name == "O" then Some([sort.Order()])
               else if name == "dirs" then BoundText(f.dirsCountMax)
               else if name == "files" then BoundText(f.filesCountMax)
               else if name == "le" then BoundText(f.mTimeLessOrEqualMs)
               else if name == "ge" then BoundText(f.mTimeGreaterOrEqualMs)
               else None
  {
    var p0 := [("C", [sort.Key()]), ("O", [sort.Order()])];
    var b1 := BoundPair("dirs", f.dirsCountMax);
    var b2 := BoundPair("files", f.filesCountMax);
    var b3 := BoundPair("le", f.mTimeLessOrEqualMs);
    var b4 := BoundPair("ge", f.mTimeGreaterOrEqualMs);
    AssocChain(p0, b1, b2, b3, b4, name);
    AssocSortPairs(sort, name);
    AssocBoundPair("dirs", f.dirsCountMax, name);
    AssocBoundPair("files", f.filesCountMax, name);
    AssocBoundPair("le", f.mTimeLessOrEqualMs, name);
    AssocBoundPair("ge", f.mTimeGreaterOrEqualMs, name);
  }

  lemma AssocSortPairs(sort: SortCriterion, name: seq<char>)
    ensures Assoc([("C", [sort.Key()]), ("O", [sort.Order()])], name)
            == if name == "C" then Some([sort.Key()]) else if name == "O" then Some([sort.Order()]) else None
  {
    var p0 := [("C", [sort.Key()]), ("O", [sort.Order()])];
    if name != "C" {
      assert Assoc(p0, name) == Assoc(p0[1..], name);
      assert p0[1..] == [("O", [sort.Order()])];
      if name != "O" {
        assert p0[1..][1..] == [];
      }
    }
  }

  lemma AssocBoundPair(key: seq<char>, v: int, name: seq<char>)
    ensures Assoc(BoundPair(key, v), name) == if key == name then BoundText(v) else None
  {
    if v != Unset {
      assert BoundPair(key, v)[1..] == [];
    }
  }

  /** Looking a key up in five lists one after the other. */
  lemma AssocChain(a: seq<(seq<char>, seq<char>)>, b: seq<(seq<char>, seq<char>)>, c: seq<(seq<char>, seq<char>)>,
                   d: seq<(seq<char>, seq<char>)>, e: seq<(seq<char>, seq<char>)>, name: seq<char>)
    ensures Assoc(a + b + c + d + e, name)
            == if Assoc(a, name).Some? then Assoc(a, name)
               else if Assoc(b, name).Some? then Assoc(b, name)
               else if Assoc(c, name).Some? then Assoc(c, name)
               else if Assoc(d, name).Some? then Assoc(d, name)
               else Assoc(e, name)
  {
    AssocAppend(a + b + c + d, e, name);
    AssocAppend(a + b + c, d, name);
    AssocAppend(a + b, c, name);
    AssocAppend(a, b, name);
  }

  /** getarg_num reads back a bound get_url_args wrote, and reads an absent bound as unset. */
  lemma ArgNumReadsBound(args: seq<char>, key: seq<char>, v: int)
    requires BoundFits(v)
    requires Lookup(args, key) == BoundText(v)
    ensures ArgNum(args, key, Unset) == v
  {
    if v != Unset {
      assert NumText(DecText(v)) == DecText(v);
      DecTextRoundTrip(v);
    }
  }

  /**
   * The round trip: for any sort and any bounds that print in at most 15 characters, reading
   * the fragment get_href formats (without its `?`) gives back that sort, whatever the default,
   * and those four bounds.
   */
  lemma HrefRoundTrip(sort: SortCriterion, f: FilterCriteria, defaultSort: SortCriterion)
    requires BoundsFit(f)
    ensures ResolveSort(HrefQuery(sort, f), defaultSort) == sort
    ensures var g := ResolveFilter(HrefQuery(sort, f));
            g.dirsCountMax == f.dirsCountMax && g.filesCountMax == f.filesCountMax
            && g.mTimeLessOrEqualMs == f.mTimeLessOrEqualMs
            && g.mTimeGreaterOrEqualMs == f.mTimeGreaterOrEqualMs
  {
    SortRoundTrip(sort, f, defaultSort);
    FilterRoundTrip(sort, f);
  }

  /** get_filter_criteria reads the four bounds back from the fragment. */
  lemma FilterRoundTrip(sort: SortCriterion, f: FilterCriteria)
    requires BoundsFit(f)
    ensures var g := ResolveFilter(HrefQuery(sort, f));
            g.dirsCountMax == f.dirsCountMax && g.filesCountMax == f.filesCountMax
            && g.mTimeLessOrEqualMs == f.mTimeLessOrEqualMs
            && g.mTimeGreaterOrEqualMs == f.mTimeGreaterOrEqualMs
  {
    AssocPairs(sort, f);
    assert ValidName("dirs") && ValidName("files") && ValidName("le") && ValidName("ge");
    BoundRoundTrip(sort, f, "dirs", f.dirsCountMax);
    BoundRoundTrip(sort, f, "files", f.filesCountMax);
    BoundRoundTrip(sort, f, "le", f.mTimeLessOrEqualMs);
    BoundRoundTrip(sort, f, "ge", f.mTimeGreaterOrEqualMs);
  }

  /** getarg_num reads back, from the fragment, each bound that the pairs hold under its key. */
  lemma BoundRoundTrip(sort: SortCriterion, f: FilterCriteria, key: seq<char>, v: int)
    requires ValidName(key) && '=' !in key && BoundFits(v)
    requires Assoc(Pairs(sort, f), key) == BoundText(v)
    ensures ArgNum(HrefQuery(sort, f), key, Unset) == v
  {
    LookupHrefQuery(sort, f, key);
    ArgNumReadsBound(HrefQuery(sort, f), key, v);
  }

  /** get_sort_criteria reads the sort back from the `C` and `O` fields of the fragment. */
  lemma SortRoundTrip(sort: SortCriterion, f: FilterCriteria, defaultSort: SortCriterion)
    ensures ResolveSort(HrefQuery(sort, f), defaultSort) == sort
  {
    var args := HrefQuery(sort, f);
    AssocPairs(sort, f);
    LookupHrefQuery(sort, f, "C");
    LookupHrefQuery(sort, f, "O");
    assert FirstChar(args, "C") == sort.Key();
    assert FirstChar(args, "O") == sort.Order();
    SortFromLetters(args, sort, defaultSort);
  }

  /** A query whose `C` and `O` start with a sort's letters resolves to that sort. */
  lemma SortFromLetters(args: seq<char>, sort: SortCriterion, defaultSort: SortCriterion)
    requires FirstChar(args, "C") == sort.Key() && FirstChar(args, "O") == sort.Order()
    ensures ResolveSort(args, defaultSort) == sort
  {
  }

  /** Every bound get_filter_criteria yields prints in at most 15 characters, so get_href never truncates it. */
  lemma ResolvedBoundsFit(args: seq<char>)
    ensures BoundsFit(ResolveFilter(args))
  {
    var f := ResolveFilter(args);
    DecTextLength(f.dirsCountMax);
    DecTextLength(f.filesCountMax);
    DecTextLength(f.mTimeLessOrEqualMs);
    DecTextLength(f.mTimeGreaterOrEqualMs);
  }

  /**
   * Parsing is stable under serialising: the criteria read from any query, written out by
   * get_href and read again, are the same sort and the same filter record.
   */
  lemma ReparseIsStable(args: seq<char>, defaultSort: SortCriterion)
    ensures BoundsFit(ResolveFilter(args))
    ensures var sort := ResolveSort(args, defaultSort);
            var f := ResolveFilter(args);
            ResolveSort(HrefQuery(sort, f), defaultSort) == sort
            && ResolveFilter(HrefQuery(sort, f)) == f
  {
    ResolvedBoundsFit(args);
    HrefRoundTrip(ResolveSort(args, defaultSort), ResolveFilter(args), defaultSort);
  }
}

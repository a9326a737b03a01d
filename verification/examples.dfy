/** Particular queries and what the extractor, the numeric reader, the resolvers and the serialiser make of them. */
module Examples {
  import opened FancyIndexTypes
  import opened CStrings
  import opened ArgScanner
  import opened ScannerProperties
  import opened DecimalText
  import opened Criteria
  import opened Href

  /** A query of two fields: the first one that is `name=…` gives the value. */
  lemma LookupTwo(f1: seq<char>, sep: seq<char>, f2: seq<char>, name: seq<char>)
    requires ValidName(name) && '&' !in f1 && '&' !in f2 && f1 != [] && f2 != []
    requires sep == "&amp;" || (sep == "&" && !AmpPrefixed(f2))
    ensures Lookup(f1 + sep + f2, name)
            == if Matches(f1, name) then Some(f1[|name| + 1..])
               else if Matches(f2, name) then Some(f2[|name| + 1..])
               else None
  {
    var fields := [f1, f2];
    assert fields[1..] == [f2] && fields[1..][1..] == [];
    assert JoinFields(fields, sep) == f1 + sep + f2;
    assert FirstMatch(fields[1..], name) == if Matches(f2, name) then Some(f2[|name| + 1..]) else None;
    LookupJoined(fields, sep, name);
  }

  /** A key must be followed by `=`: `C` is not found in `Color=red`. */
  lemma KeyNeedsEquals()
    ensures Lookup("Color=red", "C") == None
  {
    LookupSingleField("Color=red", "C");
  }

  /** A key is only tested at a field start: `C` is not found inside the value `C=N`. */
  lemma KeyInsideValue()
    ensures Lookup("x=C=N", "C") == None
  {
    LookupSingleField("x=C=N", "C");
  }

  /** After a field that does not match, the next field is tested. */
  lemma KeyInSecondField()
    ensures Lookup("Color=red&C=N", "C") == Some("N")
  {
    assert "Color=red&C=N" == "Color=red" + "&" + "C=N";
    LookupTwo("Color=red", "&", "C=N", "C");
  }

  /** A plain `&` separates fields. */
  lemma AmpersandSeparates()
    ensures Lookup("a=1&b=2", "b") == Some("2")
  {
    assert "a=1&b=2" == "a=1" + "&" + "b=2";
    LookupTwo("a=1", "&", "b=2", "b");
    assert "a=1"[..1][0] != "b"[0];
    assert "b=2"[..1] == "b" && "b=2"[2..] == "2";
  }

  /** The character reference `&amp;` separates fields too. */
  lemma EntitySeparates()
    ensures Lookup("a=1&amp;b=2", "b") == Some("2")
  {
    assert "a=1&amp;b=2" == "a=1" + "&amp;" + "b=2";
    LookupTwo("a=1", "&amp;", "b=2", "b");
    assert "a=1"[..1][0] != "b"[0];
    assert "b=2"[..1] == "b" && "b=2"[2..] == "2";
  }

  /** The first field with the key wins. */
  lemma FirstFieldWins()
    ensures Lookup("C=S&C=M", "C") == Some("S")
  {
    assert "C=S&C=M" == "C=S" + "&" + "C=M";
    LookupTwo("C=S", "&", "C=M", "C");
  }

  /** getarg_num reads a negative value. */
  lemma NegativeNumber()
    ensures ArgNum("dirs=-42", "dirs", Unset) == -42
  {
    LookupSingleField("dirs=-42", "dirs");
    assert NumText("-42") == "-42";
    assert "-42"[1..] == "42" && "42"[..1] == "4" && "4"[..0] == [];
    assert DigitsValue("4") == 4;
    assert DigitsValue("42") == 42;
  }

  /** A character other than a digit gives the default. */
  lemma NonDigitRejected()
    ensures ArgNum("dirs=12a", "dirs", Unset) == Unset
  {
    LookupSingleField("dirs=12a", "dirs");
    assert NumText("12a") == "12a" && !IsDigit("12a"[2]);
  }

  /** A `-` past the first position gives the default. */
  lemma InnerMinusRejected()
    ensures ArgNum("dirs=4-2", "dirs", Unset) == Unset
  {
    LookupSingleField("dirs=4-2", "dirs");
    assert NumText("4-2") == "4-2" && !IsDigit("4-2"[1]);
  }

  /** A leading `+` gives the default. */
  lemma PlusRejected()
    ensures ArgNum("dirs=+5", "dirs", Unset) == Unset
  {
    LookupSingleField("dirs=+5", "dirs");
    assert NumText("+5") == "+5" && !IsDigit("+5"[0]);
  }

  /** An empty value and a lone `-` pass the check and read as 0, not as the default. */
  lemma EmptyNumberIsZero()
    ensures ArgNum("le=", "le", Unset) == 0
    ensures ArgNum("le=-", "le", Unset) == 0
  {
    LookupSingleField("le=", "le");
    LookupSingleField("le=-", "le");
    assert "-"[1..] == [];
  }

  /**
   * Only the first 15 characters of a value reach the check: after 15 digits, whatever follows
   * (a letter, a `-`, even a NUL) is never seen, and the 15 digits are read.
   */
  lemma LongNumberCut(d: seq<char>, tail: seq<char>)
    requires |d| == 15 && AllDigits(d) && '&' !in tail
    ensures ArgNum("dirs=" + d + tail, "dirs", Unset) == ParseDecimal(d)
    ensures ParseDecimal(d) != Unset
  {
    var v := d + tail;
    var f := "dirs=" + v;
    assert "dirs=" + d + tail == f;
    assert '&' !in d;
    assert f[..4] == "dirs" && f[4] == '=' && f[5..] == v;
    LookupSingleField(f, "dirs");
    assert '\0' !in d;
    CTextAppend(d, tail);
    assert NumText(v) == d;
  }

  /** In every query, a key whose value is `-1` reads as unset, just as an absent key does. */
  lemma ExplicitUnsetReadsUnset(args: seq<char>, key: seq<char>)
    requires Lookup(args, key) == Some("-1") || Lookup(args, key).None?
    ensures ArgNum(args, key, Unset) == Unset
  {
    if Lookup(args, key).Some? {
      assert NumText("-1") == "-1";
      assert ParseDecimal("-1") == -DigitsValue("1");
    }
  }

  /** An explicit `dirs=-1` reads the same as no `dirs` at all. */
  lemma ExplicitUnsetIsAbsent()
    ensures ResolveFilter("dirs=-1") == ResolveFilter("")
  {
    LookupSingleField("dirs=-1", "dirs");
    ExplicitUnsetReadsUnset("dirs=-1", "dirs");
    OtherKeysAbsent("files");
    OtherKeysAbsent("le");
    OtherKeysAbsent("ge");
  }

  lemma OtherKeysAbsent(name: seq<char>)
    requires name in ["files", "le", "ge"]
    ensures Lookup("dirs=-1", name) == None
  {
    LookupSingleField("dirs=-1", name);
  }

  /** Only the first character of `C` and of `O` matters. */
  lemma SortFirstLetters()
    ensures ResolveSort("C=Size&O=Desc", Name) == SizeDesc
  {
    WordValues();
  }

  lemma WordValues()
    ensures Lookup("C=Size&O=Desc", "C") == Some("Size")
    ensures Lookup("C=Size&O=Desc", "O") == Some("Desc")
  {
    assert "C=Size&O=Desc" == "C=Size" + "&" + "O=Desc";
    SizeValue();
    DescValue();
  }

  lemma SizeValue()
    ensures Lookup("C=Size" + "&" + "O=Desc", "C") == Some("Size")
  {
    assert "O=Desc"[..4][0] != "amp;"[0];
    assert "C=Size"[..1] == "C" && "C=Size"[2..] == "Size";
    LookupTwo("C=Size", "&", "O=Desc", "C");
  }

  lemma DescValue()
    ensures Lookup("C=Size" + "&" + "O=Desc", "O") == Some("Desc")
  {
    assert "O=Desc"[..4][0] != "amp;"[0];
    assert "C=Size"[..1][0] != "O"[0];
    assert "O=Desc"[..1] == "O" && "O=Desc"[2..] == "Desc";
    LookupTwo("C=Size", "&", "O=Desc", "O");
  }

  /** An `O` other than one starting with `D` gives the ascending order. */
  lemma SortLowerCaseOrder()
    ensures ResolveSort("C=M&O=d", Name) == Date
  {
    assert "C=M&O=d" == "C=M" + "&" + "O=d";
    LookupTwo("C=M", "&", "O=d", "C");
    LookupTwo("C=M", "&", "O=d", "O");
  }

  /** A `C` that is not `M`, `S` or `N` leaves the default, whatever `O` says. */
  lemma SortUnknownKey()
    ensures ResolveSort("C=s&O=D", Date) == Date
  {
    assert "C=s&O=D" == "C=s" + "&" + "O=D";
    LookupTwo("C=s", "&", "O=D", "C");
  }

  /** Without `C` the default stays. */
  lemma SortAbsentKey()
    ensures ResolveSort("O=D", Size) == Size
  {
    LookupSingleField("O=D", "C");
  }

  /** get_url_args writes the sort literal and then only the bounds that are set, each after `&amp;`. */
  lemma UrlArgsExample()
    ensures UrlArgs(Some(SizeDesc), Some(FilterCriteria(5, Unset, 0, 0, 100, Unset, 0, 0)))
            == "?C=S&amp;O=D" + "&amp;dirs=5" + "&amp;le=100"
  {
    var s0 := SortArgs(Some(SizeDesc));
    assert s0 == "?C=S&amp;O=D";
    assert DecText(5) == "5";
    var s1 := AddBound(s0, "dirs", 5);
    assert s1 == s0 + "&amp;dirs=5";
    assert Digits(10) == "10";
    assert DecText(100) == "100";
    assert AddBound(s1, "le", 100) == s1 + "&amp;le=100";
  }

  /** Without a sort, the first bound that is set takes the `?`. */
  lemma UrlArgsFilterOnly()
    ensures UrlArgs(None, Some(FilterCriteria(Unset, 7, 0, 0, Unset, Unset, 0, 0))) == "?files=7"
  {
    assert DecText(7) == "7";
  }
}

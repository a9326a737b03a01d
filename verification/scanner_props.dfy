/** What the raw argument extractor finds: where it matches, and what a query built from fields yields. */
module ScannerProperties {
  import opened FancyIndexTypes
  import opened ArgScanner

  /** `k` is a place where the scanner may test a key: the start, or just after `&` or `&amp;`. */
  predicate FieldStart(args: seq<char>, k: nat)
  {
    k == 0
    || (1 <= k <= |args| && args[k - 1] == '&')
    || (5 <= k <= |args| && args[k - 5..k] == "&amp;")
  }

  /** `name=v` stands in `args` at the field start `k`, and `v` runs to the next `&` or to the end. */
  predicate ValueAt(args: seq<char>, name: seq<char>, v: seq<char>, k: nat)
  {
    var e := k + |name| + 1 + |v|;
    FieldStart(args, k) && e <= |args|
    && args[k..k + |name|] == name && args[k + |name|] == '='
    && args[k + |name| + 1..e] == v
    && (e == |args| || args[e] == '&')
  }

  /** The scanner only ever resumes at a field start (or at the end of the buffer). */
  lemma NextFieldIsFieldStart(args: seq<char>, p: nat)
    requires p < |args|
    ensures var q := NextFieldFrom(args, p); FieldStart(args, q) || q == |args|
  {
    var a := AmpersandFrom(args, p);
    if a < |args| {
      var t := a + 1;
      if |args| - t > 4 && args[t..t + 4] == "amp;" {
        assert args[t - 1..t + 4] == "&amp;";
      }
    }
  }

  /**
   * A value found by the scanner stands right after `name=` at a field start, so a key inside
   * another field's value never matches, and it runs to the next `&` or to the end of the buffer.
   */
  lemma {:induction false} LookupFromFieldStart(args: seq<char>, p: nat, name: seq<char>)
    requires p <= |args| && (FieldStart(args, p) || p == |args|)
    ensures LookupFrom(args, p, name).Some? ==>
              exists k :: p <= k && ValueAt(args, name, LookupFrom(args, p, name).value, k)
    decreases |args| - p
  {
    if |args| - p > |name| {
      if KeyAt(args, p, name) {
        assert ValueAt(args, name, LookupFrom(args, p, name).value, p);
      } else {
        NextFieldIsFieldStart(args, p);
        LookupFromFieldStart(args, NextFieldFrom(args, p), name);
      }
    }
  }

  /** Whenever `getarg_str` finds `name`, the value stands after `name=` at some field start. */
  lemma LookupAtFieldStart(args: seq<char>, name: seq<char>)
    ensures Lookup(args, name).Some? ==> exists k :: ValueAt(args, name, Lookup(args, name).value, k)
  {
    LookupFromFieldStart(args, 0, name);
  }

  /** The value is a piece of the query, so a query without NUL yields a value without NUL. */
  lemma LookupValueHasNoNul(args: seq<char>, name: seq<char>)
    requires '\0' !in args
    ensures Lookup(args, name).Some? ==> '\0' !in Lookup(args, name).value
  {
    LookupAtFieldStart(args, name);
    if Lookup(args, name).Some? {
      var v := Lookup(args, name).value;
      var k: nat :| ValueAt(args, name, v, k);
      var e := k + |name| + 1 + |v|;
      assert v == args[k + |name| + 1..e];
    }
  }

  /** `AmpersandFrom` is pinned down by where the first `&` is. */
  lemma AmpersandIs(args: seq<char>, p: nat, q: nat)
    requires p <= q <= |args| && (q == |args| || args[q] == '&')
    requires forall i :: p <= i < q ==> args[i] != '&'
    ensures AmpersandFrom(args, p) == q
  {
  }

  lemma {:induction false} AmpersandShift(a: seq<char>, b: seq<char>, p: nat)
    requires p <= |b|
    ensures AmpersandFrom(a + b, |a| + p) == |a| + AmpersandFrom(b, p)
    decreases |b| - p
  {
    if p < |b| && b[p] != '&' {
      assert (a + b)[|a| + p] == b[p];
      AmpersandShift(a, b, p + 1);
    }
  }

  lemma NextFieldShift(a: seq<char>, b: seq<char>, p: nat)
    requires p < |b|
    ensures NextFieldFrom(a + b, |a| + p) == |a| + NextFieldFrom(b, p)
  {
    AmpersandShift(a, b, p);
    var t := AmpersandFrom(b, p) + 1;
    if t < |b| - 4 {
      assert (a + b)[|a| + t..|a| + t + 4] == b[t..t + 4];
    }
  }

  /** Scanning `a + b` from a position inside `b` sees only `b`. */
  lemma {:induction false} LookupShift(a: seq<char>, b: seq<char>, p: nat, name: seq<char>)
    requires p <= |b|
    ensures LookupFrom(a + b, |a| + p, name) == LookupFrom(b, p, name)
    decreases |b| - p
  {
    var s := a + b;
    var q := |a| + p;
    assert |s| - q == |b| - p;
    if |b| - p > |name| {
      KeyAtShift(a, b, p, name);
      if KeyAt(b, p, name) {
        ValueShift(a, b, p + |name| + 1);
      } else {
        NextFieldShift(a, b, p);
        LookupShift(a, b, NextFieldFrom(b, p), name);
        assert LookupFrom(s, q, name) == LookupFrom(s, NextFieldFrom(s, q), name);
      }
    }
  }

  lemma KeyAtShift(a: seq<char>, b: seq<char>, p: nat, name: seq<char>)
    requires p + |name| < |b|
    ensures KeyAt(a + b, |a| + p, name) == KeyAt(b, p, name)
  {
    var s := a + b;
    assert s[|a| + p..|a| + p + |name|] == b[p..p + |name|];
    assert s[|a| + p + |name|] == b[p + |name|];
  }

  lemma ValueShift(a: seq<char>, b: seq<char>, v: nat)
    requires v <= |b|
    ensures (a + b)[|a| + v..AmpersandFrom(a + b, |a| + v)] == b[v..AmpersandFrom(b, v)]
  {
    AmpersandShift(a, b, v);
    assert (a + b)[|a| + v..|a| + AmpersandFrom(b, v)] == b[v..AmpersandFrom(b, v)];
  }

  /** Fields written one after another with the separator `sep` between them. */
  function JoinFields(fields: seq<seq<char>>, sep: seq<char>): (s: seq<char>)
    ensures |fields| > 0 ==> |s| >= |fields[0]|
  {
    if |fields| == 0 then []
    else if |fields| == 1 then fields[0]
    else fields[0] + sep + JoinFields(fields[1..], sep)
  }

  /** The field is `name=…`. */
  predicate Matches(field: seq<char>, name: seq<char>)
  {
    |name| < |field| && field[..|name|] == name && field[|name|] == '='
  }

  /** The value of the first field that is `name=…`. */
  function FirstMatch(fields: seq<seq<char>>, name: seq<char>): Option<seq<char>>
  {
    if |fields| == 0 then None
    else if Matches(fields[0], name) then Some(fields[0][|name| + 1..])
    else FirstMatch(fields[1..], name)
  }

  /** The field begins with the text `amp;`, which the scanner would skip after a bare `&`. */
  predicate AmpPrefixed(field: seq<char>)
  {
    |field| >= 4 && field[..4] == "amp;"
  }

  /** The fields a query is built from: no `&` inside them, and what each separator needs. */
  predicate WellSeparated(fields: seq<seq<char>>, sep: seq<char>)
  {
    (sep == "&" || sep == "&amp;")
    && (forall i :: 0 <= i < |fields| ==> '&' !in fields[i])
    && (sep == "&" ==> forall i :: 1 <= i < |fields| ==> !AmpPrefixed(fields[i]))
    && (sep == "&amp;" ==> forall i :: 0 <= i < |fields| ==> fields[i] != [])
  }

  /**
   * In a query made of fields separated by `&` (none of them but the first starting with
   * `amp;`) or by `&amp;` (none of them empty), the extractor returns the value of the first
   * field that is `name=…`: both separators are recognised and the first match wins.
   */
  lemma {:induction false} LookupJoined(fields: seq<seq<char>>, sep: seq<char>, name: seq<char>)
    requires ValidName(name) && WellSeparated(fields, sep)
    ensures Lookup(JoinFields(fields, sep), name) == FirstMatch(fields, name)
  {
    if |fields| == 1 {
      LookupSingleField(fields[0], name);
    } else if |fields| > 1 {
      assert WellSeparated(fields[1..], sep) by {
        forall i | 0 <= i < |fields| - 1 ensures '&' !in fields[1..][i] {
          assert fields[1..][i] == fields[i + 1];
        }
      }
      LookupJoined(fields[1..], sep, name);
      SeparatorSkipped(fields, sep);
      LookupNextField(fields[0], sep, JoinFields(fields[1..], sep), name);
    }
  }

  /** A query of one field yields its value exactly when it is `name=…`. */
  lemma LookupSingleField(f: seq<char>, name: seq<char>)
    requires ValidName(name) && '&' !in f
    ensures Lookup(f, name) == if Matches(f, name) then Some(f[|name| + 1..]) else None
  {
    LookupFirstField(f, [], name);
    assert f + [] == f;
    if !Matches(f, name) && |f| > |name| {
      assert !KeyAt(f, 0, name);
      AmpersandIs(f, 0, |f|);
      assert NextFieldFrom(f, 0) == |f|;
      assert LookupFrom(f, |f|, name) == None;
    }
  }

  /** The first field of `f + sep + rest` either matches or hands the search over to `rest`. */
  lemma LookupNextField(f: seq<char>, sep: seq<char>, rest: seq<char>, name: seq<char>)
    requires ValidName(name) && '&' !in f && |sep| > 0 && sep[0] == '&'
    requires NextFieldFrom(f + sep + rest, 0) == |f| + |sep|
    ensures Lookup(f + sep + rest, name) == if Matches(f, name) then Some(f[|name| + 1..]) else Lookup(rest, name)
  {
    var s := f + sep + rest;
    assert s == f + (sep + rest);
    LookupFirstField(f, sep + rest, name);
    if !Matches(f, name) {
      assert s == (f + sep) + rest;
      LookupShift(f + sep, rest, 0, name);
      if |s| <= |name| {
        assert |rest| < |s|;
      }
    }
  }

  /** A first field without `&`, followed by text that starts with `&`, matches exactly when it is `name=…`, and its value is the rest of it. */
  lemma LookupFirstField(f: seq<char>, more: seq<char>, name: seq<char>)
    requires ValidName(name) && '&' !in f
    requires more == [] || more[0] == '&'
    ensures |f + more| > |name| ==> (KeyAt(f + more, 0, name) <==> Matches(f, name))
    ensures Matches(f, name) ==> Lookup(f + more, name) == Some(f[|name| + 1..])
  {
    var s := f + more;
    var n := |name|;
    if |f| <= n < |s| {
      assert s[|f|] == '&';
      assert !KeyAt(s, 0, name);
    }
    if Matches(f, name) {
      assert s[..n] == f[..n];
      AmpersandIs(s, n + 1, |f|);
      assert s[n + 1..|f|] == f[n + 1..];
    }
  }

  /** After a first field that does not match, the scanner resumes exactly at the second field. */
  lemma SeparatorSkipped(fields: seq<seq<char>>, sep: seq<char>)
    requires WellSeparated(fields, sep) && |fields| > 1
    ensures var s := fields[0] + sep + JoinFields(fields[1..], sep);
            NextFieldFrom(s, 0) == |fields[0]| + |sep|
  {
    var rest := JoinFields(fields[1..], sep);
    if sep == "&" {
      JoinNotAmpPrefixed(fields[1..]);
      SkipAmpersand(fields[0], rest);
    } else {
      SkipEntity(fields[0], rest);
    }
  }

  lemma SkipAmpersand(f: seq<char>, rest: seq<char>)
    requires '&' !in f && !AmpPrefixed(rest)
    ensures NextFieldFrom(f + "&" + rest, 0) == |f| + 1
  {
    var s := f + "&" + rest;
    AmpersandIs(s, 0, |f|);
    var t := |f| + 1;
    if |s| - t > 4 {
      assert s[t..t + 4] == rest[..4];
    }
  }

  lemma SkipEntity(f: seq<char>, rest: seq<char>)
    requires '&' !in f && rest != []
    ensures NextFieldFrom(f + "&amp;" + rest, 0) == |f| + 5
  {
    var s := f + "&amp;" + rest;
    AmpersandIs(s, 0, |f|);
    var t := |f| + 1;
    assert s[t..t + 4] == "amp;";
  }

  /** Fields joined by `&` begin with `amp;` only if the first field does. */
  lemma JoinNotAmpPrefixed(fields: seq<seq<char>>)
    requires |fields| > 0 && '&' !in fields[0] && !AmpPrefixed(fields[0])
    ensures !AmpPrefixed(JoinFields(fields, "&"))
  {
    var s := JoinFields(fields, "&");
    var g := fields[0];
    if |s| >= 4 && |fields| > 1 {
      if |g| >= 4 {
        assert s[..4] == g[..4];
      } else {
        assert s[|g|] == '&';
        assert s[..4][|g|] != "amp;"[|g|];
      }
    }
  }
}

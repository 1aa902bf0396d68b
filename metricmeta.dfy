/**
 * The label canonicalisation of the PostgreSQL writer (`metricMetaJson`): a
 * label set becomes its metric name and a brace-delimited text of its other
 * labels, each rendered `"name": "value"` with JSON string escaping, sorted as
 * whole strings and comma-joined. The text is the key under which label sets
 * are deduplicated, so it must not depend on the order in which the map is
 * iterated.
 */
module MetricMeta {
  import opened Model
  import opened Strings
  import Json

  /** One rendered label: both sides as `json.Marshal` writes them, separated by ": ". */
  function Entry(key: string, value: string): string
  {
    Json.Quote(key) + ": " + Json.Quote(value)
  }

  /** What the loop appends for key `k`: nothing for the name label, else its entry. */
  function EntriesOfKey(m: Metric, k: string): seq<string>
    requires k in m
  {
    if k == NameLabel then [] else [Entry(k, m[k])]
  }

  /** The entries of the keys `ks` in one fixed, otherwise arbitrary, enumeration order. */
  ghost function Enumerate(m: Metric, ks: set<string>): seq<string>
    requires ks <= m.Keys
    decreases ks
  {
    if ks == {} then [] else var k :| k in ks; Enumerate(m, ks - {k}) + EntriesOfKey(m, k)
  }

  /** The entries the loop produces when it visits the keys in the order `order`. */
  function EntriesInOrder(m: Metric, order: seq<string>): seq<string>
    requires forall i :: 0 <= i < |order| ==> order[i] in m
    decreases |order|
  {
    if |order| == 0 then []
    else EntriesInOrder(m, order[..|order| - 1]) + EntriesOfKey(m, order[|order| - 1])
  }

  /** The sorted entries of all non-name labels of `m`. */
  ghost function CanonicalEntries(m: Metric): seq<string>
  {
    Sort(Enumerate(m, m.Keys))
  }

  /** The canonical label text of `m`. */
  ghost function CanonicalText(m: Metric): string
  {
    "{" + Join(CanonicalEntries(m), ",") + "}"
  }

  /** Removing any one key from an enumeration removes exactly that key's entries. */
  lemma {:induction false} EnumerateRemove(m: Metric, ks: set<string>, k: string)
    requires ks <= m.Keys && k in ks
    ensures multiset(Enumerate(m, ks)) == multiset(Enumerate(m, ks - {k})) + multiset(EntriesOfKey(m, k))
    decreases ks
  {
    var j :| j in ks && Enumerate(m, ks) == Enumerate(m, ks - {j}) + EntriesOfKey(m, j);
    if j != k {
      EnumerateRemove(m, ks - {j}, k);
      EnumerateRemove(m, ks - {k}, j);
      assert ks - {j} - {k} == ks - {k} - {j};
    }
  }

  /** One entry per non-name key. */
  lemma {:induction false} EnumerateSize(m: Metric, ks: set<string>)
    requires ks <= m.Keys
    ensures |Enumerate(m, ks)| == |ks - {NameLabel}|
    decreases ks
  {
    if ks != {} {
      var k :| k in ks && Enumerate(m, ks) == Enumerate(m, ks - {k}) + EntriesOfKey(m, k);
      var rest := ks - {k};
      EnumerateSize(m, rest);
      assert |Enumerate(m, ks)| == |rest - {NameLabel}| + |EntriesOfKey(m, k)|;
      if k == NameLabel {
        assert rest - {NameLabel} == ks - {NameLabel};
      } else {
        assert ks - {NameLabel} == (rest - {NameLabel}) + {k};
        assert k !in rest - {NameLabel};
      }
    }
  }

  /** The entries are exactly the entries of the non-name keys. */
  lemma {:induction false} EnumerateMembers(m: Metric, ks: set<string>, x: string)
    requires ks <= m.Keys
    ensures x in Enumerate(m, ks) <==> exists k :: k in ks && k != NameLabel && x == Entry(k, m[k])
    decreases ks
  {
    if ks != {} {
      var k :| k in ks;
      EnumerateRemove(m, ks, k);
      EnumerateMembers(m, ks - {k}, x);
      assert x in Enumerate(m, ks) <==> x in multiset(Enumerate(m, ks));
      assert x in Enumerate(m, ks - {k}) <==> x in multiset(Enumerate(m, ks - {k}));
      assert x in EntriesOfKey(m, k) <==> x in multiset(EntriesOfKey(m, k));
    }
  }

  /** Two label sets that agree on every non-name key of `ks` have the same entries. */
  lemma {:induction false} EnumerateAgree(m1: Metric, m2: Metric, ks: set<string>)
    requires ks <= m1.Keys && ks <= m2.Keys
    requires forall k :: k in ks && k != NameLabel ==> m1[k] == m2[k]
    ensures multiset(Enumerate(m1, ks)) == multiset(Enumerate(m2, ks))
    decreases ks
  {
    if ks != {} {
      var k :| k in ks;
      EnumerateRemove(m1, ks, k);
      EnumerateRemove(m2, ks, k);
      EnumerateAgree(m1, m2, ks - {k});
    }
  }

  /** Whatever order the keys are visited in, the loop collects the same entries. */
  lemma {:induction false} EntriesInOrderMultiset(m: Metric, order: seq<string>)
    requires forall i :: 0 <= i < |order| ==> order[i] in m
    requires forall i, j :: 0 <= i < j < |order| ==> order[i] != order[j]
    ensures multiset(EntriesInOrder(m, order)) == multiset(Enumerate(m, set k | k in order))
    decreases |order|
  {
    var ks := set k | k in order;
    if |order| == 0 {
      assert ks == {};
    } else {
      var n := |order| - 1;
      var last := order[n];
      EntriesInOrderMultiset(m, order[..n]);
      assert (set k | k in order[..n]) == ks - {last} by {
        forall k | k in ks - {last} ensures k in order[..n] {
          var i :| 0 <= i < |order| && order[i] == k;
          assert i < n;
          assert order[..n][i] == k;
        }
      }
      EnumerateRemove(m, ks, last);
    }
  }

  /**
   * The label text does not depend on the map's iteration order: for every
   * order of visiting the keys, sorting the collected entries yields the
   * canonical entries.
   */
  lemma OrderIndependent(m: Metric, order: seq<string>)
    requires forall i, j :: 0 <= i < j < |order| ==> order[i] != order[j]
    requires (set k | k in order) == m.Keys
    ensures Sort(EntriesInOrder(m, order)) == CanonicalEntries(m)
  {
    EntriesInOrderMultiset(m, order);
    SortPermutationInvariant(EntriesInOrder(m, order), Enumerate(m, m.Keys));
  }

  /**
   * The canonical entries are sorted, one per non-name label, and exactly the
   * entries `"name": "value"` of the non-name labels; the name label never
   * contributes one.
   */
  lemma CanonicalEntriesSpec(m: Metric)
    ensures Sorted(CanonicalEntries(m))
    ensures |CanonicalEntries(m)| == |m.Keys - {NameLabel}|
    ensures forall k :: k in m && k != NameLabel ==> Entry(k, m[k]) in CanonicalEntries(m)
    ensures forall x :: x in CanonicalEntries(m) ==> exists k :: k in m && k != NameLabel && x == Entry(k, m[k])
  {
    var e := Enumerate(m, m.Keys);
    SortCorrect(e);
    EnumerateSize(m, m.Keys);
    assert |CanonicalEntries(m)| == |multiset(CanonicalEntries(m))| == |multiset(e)|;
    forall x ensures x in CanonicalEntries(m) <==> x in e {
      assert x in CanonicalEntries(m) <==> x in multiset(CanonicalEntries(m));
    }
    forall k | k in m && k != NameLabel ensures Entry(k, m[k]) in CanonicalEntries(m) {
      EnumerateMembers(m, m.Keys, Entry(k, m[k]));
    }
    forall x | x in CanonicalEntries(m) ensures exists k :: k in m && k != NameLabel && x == Entry(k, m[k]) {
      EnumerateMembers(m, m.Keys, x);
    }
  }

  lemma {:induction false} JoinNonEmpty(parts: seq<string>, sep: string)
    requires |parts| > 0 && |parts[0]| > 0
    ensures |Join(parts, sep)| > 0
  {
  }

  /** The text is "{}" exactly when there is no label besides the name. */
  lemma EmptyTextIff(m: Metric)
    ensures CanonicalText(m) == "{}" <==> m.Keys <= {NameLabel}
  {
    CanonicalEntriesSpec(m);
    var e := CanonicalEntries(m);
    if |e| > 0 {
      assert e[0] in e;
      var k :| k in m && k != NameLabel && e[0] == Entry(k, m[k]);
      JoinNonEmpty(e, ",");
      assert |CanonicalText(m)| > 2;
    } else {
      assert m.Keys - {NameLabel} == {};
    }
  }

  /** The entries of a label set are those of the label set without its name label. */
  lemma EnumerateWithoutName(m: Metric)
    ensures multiset(Enumerate(m, m.Keys)) == multiset(Enumerate(m - {NameLabel}, (m - {NameLabel}).Keys))
  {
    var base := m - {NameLabel};
    var rest := m.Keys - {NameLabel};
    assert base.Keys == rest;
    assert forall k :: k in rest ==> base[k] == m[k];
    EnumerateAgree(base, m, rest);
    if NameLabel in m {
      EnumerateRemove(m, m.Keys, NameLabel);
      assert EntriesOfKey(m, NameLabel) == [];
    } else {
      assert m.Keys == rest;
    }
  }

  /** The name label does not affect the text: dropping it or changing its value keeps the text. */
  lemma NameLabelIgnored(m: Metric, name: string)
    ensures CanonicalText(m - {NameLabel}) == CanonicalText(m)
    ensures CanonicalText(m[NameLabel := name]) == CanonicalText(m)
  {
    var base := m - {NameLabel};
    var named := m[NameLabel := name];
    assert CanonicalText(base) == CanonicalText(m) by {
      EnumerateWithoutName(m);
      EnumerateWithoutName(base);
      assert base - {NameLabel} == base;
      SameEnumerationSameText(base, m);
    }
    assert CanonicalText(named) == CanonicalText(m) by {
      EnumerateWithoutName(m);
      EnumerateWithoutName(named);
      assert named - {NameLabel} == base;
      SameEnumerationSameText(named, m);
    }
  }

  lemma SameEnumerationSameText(m1: Metric, m2: Metric)
    requires multiset(Enumerate(m1, m1.Keys)) == multiset(Enumerate(m2, m2.Keys))
    ensures CanonicalText(m1) == CanonicalText(m2)
  {
    SortPermutationInvariant(Enumerate(m1, m1.Keys), Enumerate(m2, m2.Keys));
  }

  /** Regrouping a rendered label followed by a rest. */
  lemma Regroup(a: string, b: string, c: string, d: string)
    ensures a + b + c + d == a + (b + c + d)
  {
  }

  /** Equal strings with the same prefix agree after it. */
  lemma CancelPrefix(p: string, x: string, y: string)
    requires p + x == p + y
    ensures x == y
  {
    assert (p + x)[|p|..] == x && (p + y)[|p|..] == y;
  }

  /** An entry determines its key and value, and no entry is a proper prefix of another. */
  lemma EntryInjective(k1: string, v1: string, r1: string, k2: string, v2: string, r2: string)
    requires Entry(k1, v1) + r1 == Entry(k2, v2) + r2
    ensures k1 == k2 && v1 == v2 && r1 == r2
  {
    var q1, q2 := Json.Quote(v1), Json.Quote(v2);
    Regroup(Json.Quote(k1), ": ", q1, r1);
    Regroup(Json.Quote(k2), ": ", q2, r2);
    Json.QuoteInjective(k1, ": " + q1 + r1, k2, ": " + q2 + r2);
    Regroup(": ", q1, r1, "");
    Regroup(": ", q2, r2, "");
    assert ": " + q1 + r1 == ": " + (q1 + r1) && ": " + q2 + r2 == ": " + (q2 + r2);
    CancelPrefix(": ", q1 + r1, q2 + r2);
    Json.QuoteInjective(v1, r1, v2, r2);
  }

  /** `x` is a rendered label. */
  ghost predicate IsEntry(x: string)
  {
    exists k, v :: x == Entry(k, v)
  }

  /** Every element of `e` is a rendered label. */
  ghost predicate AllEntries(e: seq<string>)
  {
    forall i :: 0 <= i < |e| ==> IsEntry(e[i])
  }

  /** A rendered label starts with the opening quote of its key. */
  lemma EntryStartsWithQuote(k: string, v: string, r: string)
    ensures |Entry(k, v) + r| > 0 && (Entry(k, v) + r)[0] == '"'
  {
  }

  /** What follows the first part of comma-joined parts closed by a brace. */
  function JoinedTail(e: seq<string>): string
    requires |e| > 0
  {
    if |e| == 1 then "}" else "," + Join(e[1..], ",") + "}"
  }

  lemma JoinHead(e: seq<string>)
    requires |e| > 0
    ensures Join(e, ",") + "}" == e[0] + JoinedTail(e)
  {
    if |e| > 1 {
      var rest := Join(e[1..], ",");
      assert Join(e, ",") == e[0] + "," + rest;
      Regroup(e[0], ",", rest, "}");
    }
  }

  lemma AllEntriesTail(e: seq<string>)
    requires AllEntries(e) && |e| > 0
    ensures AllEntries(e[1..])
  {
    var tail := e[1..];
    forall i | 0 <= i < |tail| ensures IsEntry(tail[i]) {
      assert tail[i] == e[i + 1];
    }
  }

  /** Two rendered labels, each followed by a rest, agree when the strings do. */
  lemma HeadEntryInjective(x1: string, t1: string, x2: string, t2: string)
    requires IsEntry(x1) && IsEntry(x2)
    requires x1 + t1 == x2 + t2
    ensures x1 == x2 && t1 == t2
  {
    var k1, v1 :| x1 == Entry(k1, v1);
    var k2, v2 :| x2 == Entry(k2, v2);
    EntryInjective(k1, v1, t1, k2, v2, t2);
  }

  /** Comma-joined entries are empty exactly when there are none. */
  lemma JoinEmptyIff(e: seq<string>)
    requires AllEntries(e)
    ensures |e| == 0 <==> Join(e, ",") == ""
  {
    if |e| > 0 {
      var k, v :| e[0] == Entry(k, v);
      EntryStartsWithQuote(k, v, "");
      JoinHead(e);
      assert |Join(e, ",") + "}"| == |e[0]| + |JoinedTail(e)|;
    }
  }

  /** The first character of the tail, and what the tail holds after it. */
  lemma JoinedTailShape(e: seq<string>)
    requires |e| > 0
    ensures |JoinedTail(e)| > 0 && JoinedTail(e)[0] == (if |e| == 1 then '}' else ',')
    ensures |e| > 1 ==> JoinedTail(e)[1..] == Join(e[1..], ",") + "}"
  {
  }

  /** The comma-joined entries, closed by a brace, determine the entries. */
  lemma {:induction false} JoinEntriesInjective(e1: seq<string>, e2: seq<string>)
    requires AllEntries(e1) && AllEntries(e2)
    requires Join(e1, ",") + "}" == Join(e2, ",") + "}"
    ensures e1 == e2
    decreases |e1|
  {
    JoinEmptyIff(e1);
    JoinEmptyIff(e2);
    assert |Join(e1, ",")| == |Join(e2, ",")|;
    if |e1| > 0 {
      JoinHead(e1);
      JoinHead(e2);
      HeadEntryInjective(e1[0], JoinedTail(e1), e2[0], JoinedTail(e2));
      JoinedTailsAgree(e1, e2);
      SameHeadSameTail(e1, e2);
    }
  }

  /** Equal tails after equal first entries have equal remaining entries. */
  lemma {:induction false} JoinedTailsAgree(e1: seq<string>, e2: seq<string>)
    requires AllEntries(e1) && AllEntries(e2) && |e1| > 0 && |e2| > 0
    requires JoinedTail(e1) == JoinedTail(e2)
    ensures e1[1..] == e2[1..]
    decreases |e1|, 0
  {
    JoinedTailShape(e1);
    JoinedTailShape(e2);
    if |e1| > 1 {
      AllEntriesTail(e1);
      AllEntriesTail(e2);
      JoinEntriesInjective(e1[1..], e2[1..]);
    }
  }

  /** The canonical entries are rendered labels. */
  lemma CanonicalAllEntries(m: Metric)
    ensures AllEntries(CanonicalEntries(m))
  {
    CanonicalEntriesSpec(m);
    var e := CanonicalEntries(m);
    forall i | 0 <= i < |e| ensures IsEntry(e[i]) {
      assert e[i] in e;
    }
  }

  /** Equal texts have equal canonical entries. */
  lemma TextDeterminesEntries(m1: Metric, m2: Metric)
    requires CanonicalText(m1) == CanonicalText(m2)
    ensures CanonicalEntries(m1) == CanonicalEntries(m2)
  {
    var e1 := CanonicalEntries(m1);
    var e2 := CanonicalEntries(m2);
    assert CanonicalText(m1)[1..] == Join(e1, ",") + "}";
    assert CanonicalText(m2)[1..] == Join(e2, ",") + "}";
    CanonicalAllEntries(m1);
    CanonicalAllEntries(m2);
    JoinEntriesInjective(e1, e2);
  }

  /** Every non-name label of `m1` is a label of `m2` with the same value when both have the same entries. */
  lemma EntriesDetermineLabels(m1: Metric, m2: Metric, k: string)
    requires CanonicalEntries(m1) == CanonicalEntries(m2)
    requires k in m1 && k != NameLabel
    ensures k in m2 && m2[k] == m1[k]
  {
    CanonicalEntriesSpec(m1);
    CanonicalEntriesSpec(m2);
    assert Entry(k, m1[k]) in CanonicalEntries(m2);
    var k2 :| k2 in m2 && k2 != NameLabel && Entry(k, m1[k]) == Entry(k2, m2[k2]);
    EntryInjective(k, m1[k], "", k2, m2[k2], "");
  }

  /**
   * The text identifies the labels: two label sets have the same text
   * exactly when they agree on every label but the name.
   */
  lemma LabelTextInjective(m1: Metric, m2: Metric)
    ensures CanonicalText(m1) == CanonicalText(m2) <==> m1 - {NameLabel} == m2 - {NameLabel}
  {
    if CanonicalText(m1) == CanonicalText(m2) {
      TextDeterminesEntries(m1, m2);
      forall k | k in m1 && k != NameLabel ensures k in m2 && m2[k] == m1[k] {
        EntriesDetermineLabels(m1, m2, k);
      }
      forall k | k in m2 && k != NameLabel ensures k in m1 && m1[k] == m2[k] {
        EntriesDetermineLabels(m2, m1, k);
      }
      assert (m1 - {NameLabel}).Keys == (m2 - {NameLabel}).Keys;
    }
    if m1 - {NameLabel} == m2 - {NameLabel} {
      NameLabelIgnored(m1, "");
      NameLabelIgnored(m2, "");
    }
  }

  /** A label set with no label besides the name has the text "{}". */
  lemma NoLabelsText(m: Metric)
    requires (if NameLabel in m then |m| - 1 else |m|) == 0
    ensures CanonicalText(m) == "{}"
  {
    assert m.Keys - {NameLabel} == {} by {
      assert |m.Keys| == |m|;
      if NameLabel in m { assert m.Keys == {NameLabel} + (m.Keys - {NameLabel}); }
    }
    EnumerateSize(m, m.Keys);
    assert CanonicalEntries(m) == [];
  }

  /** Sorting any collection of the entries of `m` and joining them gives the canonical text. */
  lemma SortedText(m: Metric, labelStrings: seq<string>)
    requires multiset(labelStrings) == multiset(Enumerate(m, m.Keys))
    ensures "{" + Join(Sort(labelStrings), ",") + "}" == CanonicalText(m)
  {
    SortPermutationInvariant(labelStrings, Enumerate(m, m.Keys));
  }

  /** The only entry of a label set with a single non-name label. */
  lemma SingleEntry(m: Metric, k: string)
    requires k in m && k != NameLabel && m.Keys - {NameLabel} == {k}
    ensures CanonicalText(m) == "{" + Entry(k, m[k]) + "}"
  {
    var e := CanonicalEntries(m);
    assert |e| == 1 && Entry(k, m[k]) in e by {
      CanonicalEntriesSpec(m);
    }
    assert e == [Entry(k, m[k])];
  }

  /** A label set with one label besides the name: `{__name__="up", job="a"}` has the text `{"job": "a"}`. */
  lemma SingleLabelExample()
    ensures MetricName(map[NameLabel := "up", "job" := "a"]) == "up"
    ensures CanonicalText(map[NameLabel := "up", "job" := "a"]) == "{\"job\": \"a\"}"
  {
    var m := map[NameLabel := "up", "job" := "a"];
    assert CanonicalText(m) == "{" + Entry("job", "a") + "}" by {
      assert m.Keys - {NameLabel} == {"job"} by {
        assert m.Keys == {NameLabel, "job"};
      }
      SingleEntry(m, "job");
      assert m["job"] == "a";
    }
    EntryExample();
    BracedJob();
  }

  lemma BracedJob()
    ensures "{" + "\"job\": \"a\"" + "}" == "{\"job\": \"a\"}"
  {
  }

  lemma EntryExample()
    ensures Entry("job", "a") == "\"job\": \"a\""
  {
    PlainEntry("job", "a");
  }

  /** The entry of a key and a value without characters that need escaping: both quoted as they are. */
  lemma PlainEntry(key: string, value: string)
    requires forall i :: 0 <= i < |key| ==> Json.Plain(key[i])
    requires forall i :: 0 <= i < |value| ==> Json.Plain(value[i])
    ensures Entry(key, value) == "\"" + key + "\": \"" + value + "\""
  {
    Json.EscapeBodyPlain(key);
    Json.EscapeBodyPlain(value);
  }

  /** A sorted list of two strings, holding `x` strictly below `y`, is `[x, y]`. */
  lemma SortedPair(e: seq<string>, x: string, y: string)
    requires Sorted(e) && |e| == 2 && x in e && y in e
    requires Le(x, y) && !Le(y, x)
    ensures e == [x, y]
  {
    assert Le(e[0], e[1]);
  }

  /** The entries of "a b" and "a". */
  lemma PrefixKeyEntries()
    ensures Entry("a b", "2") == "\"a b\": \"2\"" && Entry("a", "1") == "\"a\": \"1\""
  {
    PlainEntryAB();
    PlainEntryA();
  }

  lemma PlainEntryAB()
    ensures Entry("a b", "2") == "\"a b\": \"2\""
  {
    PlainEntry("a b", "2");
  }

  lemma PlainEntryA()
    ensures Entry("a", "1") == "\"a\": \"1\""
  {
    PlainEntry("a", "1");
  }

  /** The entry text of "a b" sorts strictly below that of "a": after `"a`, a space sorts before a quote. */
  lemma PrefixKeyOrder()
    ensures Le("\"a b\": \"2\"", "\"a\": \"1\"") && !Le("\"a\": \"1\"", "\"a b\": \"2\"")
  {
    var x: string, y: string := "\"a b\": \"2\"", "\"a\": \"1\"";
    assert x[1..][1..] == " b\": \"2\"" && y[1..][1..] == "\": \"1\"";
  }

  /**
   * The entries are ordered as whole `"key": "value"` strings, which is not
   * always the order of their keys: "a" sorts before "a b", yet the entry of
   * "a b" comes first, because after `"a` a space sorts before a quote.
   */
  lemma EntryOrderNotKeyOrder()
    ensures Le("a", "a b") && !Le("a b", "a")
    ensures CanonicalEntries(map["a" := "1", "a b" := "2"]) == [Entry("a b", "2"), Entry("a", "1")]
  {
    assert "a b"[1..] == " b" && "a"[1..] == "";
    var m := map["a" := "1", "a b" := "2"];
    assert m.Keys - {NameLabel} == {"a", "a b"};
    assert m["a"] == "1" && m["a b"] == "2";
    PrefixKeyEntries();
    PrefixKeyOrder();
    TwoEntries(m, "a", "a b");
  }

  /** With two non-name labels whose entries compare strictly, the canonical entries are those two, in that order. */
  lemma TwoEntries(m: Metric, a: string, b: string)
    requires a in m && b in m && a != b && m.Keys - {NameLabel} == {a, b}
    requires Le(Entry(b, m[b]), Entry(a, m[a])) && !Le(Entry(a, m[a]), Entry(b, m[b]))
    ensures CanonicalEntries(m) == [Entry(b, m[b]), Entry(a, m[a])]
  {
    CanonicalEntriesSpec(m);
    var e := CanonicalEntries(m);
    assert |e| == 2;
    assert a != NameLabel && b != NameLabel;
    SortedPair(e, Entry(b, m[b]), Entry(a, m[a]));
  }

  /** Moving the entries `e` of one key from the unvisited to the collected part keeps their union. */
  lemma CollectStep(collected: seq<string>, e: seq<string>, unvisited: seq<string>, unvisited': seq<string>, all: seq<string>)
    requires multiset(collected) + multiset(unvisited) == multiset(all)
    requires multiset(unvisited) == multiset(unvisited') + multiset(e)
    ensures multiset(collected + e) + multiset(unvisited') == multiset(all)
  {
  }

  /**
   * `metricMetaJson`: the metric name (or "" when the name label is absent)
   * and the canonical label text. The keys are visited in an arbitrary order,
   * as Go iterates a map; the collected entries are then sorted.
   */
  method MetricMetaJson(m: Metric) returns (metricName: string, labelsText: string)
    ensures metricName == MetricName(m)
    ensures labelsText == CanonicalText(m)
  {
    var hasName := NameLabel in m;
    metricName := if hasName then m[NameLabel] else "";
    var numLabels := if hasName then |m| - 1 else |m|;
    var labelStrings: seq<string> := [];
    var remaining := m.Keys;
    while remaining != {}
      invariant remaining <= m.Keys
      invariant multiset(labelStrings) + multiset(Enumerate(m, remaining)) == multiset(Enumerate(m, m.Keys))
      decreases remaining
    {
      var key :| key in remaining;
      ghost var before := labelStrings;
      if key != NameLabel {
        var escapedLabel := Json.Quote(key);
        var escapedValue := Json.Quote(m[key]);
        labelStrings := labelStrings + [escapedLabel + ": " + escapedValue];
      }
      assert labelStrings == before + EntriesOfKey(m, key);
      EnumerateRemove(m, remaining, key);
      CollectStep(before, EntriesOfKey(m, key), Enumerate(m, remaining), Enumerate(m, remaining - {key}), Enumerate(m, m.Keys));
      remaining := remaining - {key};
    }
    if numLabels == 0 {
      NoLabelsText(m);
      labelsText := "{}";
    } else {
      SortedText(m, labelStrings);
      labelStrings := Sort(labelStrings);
      labelsText := "{" + Join(labelStrings, ",") + "}";
    }
  }
}

/** The string a gateway request is signed over (cloud/signing.py). */
module SignString {

  /** A dictionary as its items in insertion order. */
  type Items = seq<(string, string)>

  predicate DistinctKeys(items: Items) {
    forall i, j :: 0 <= i < j < |items| ==> items[i].0 != items[j].0
  }

  const WHITELIST: set<string> := {
    "a", "v", "lat", "lon", "lang", "deviceId", "appVersion", "ttid", "isH5", "h5Token",
    "os", "clientId", "postData", "time", "requestId", "et", "n4h5", "sid", "chKey", "sp"
  }

  /** The order of strings by code points. */
  predicate LessEq(a: string, b: string) {
    a == [] || (b != [] && (a[0] < b[0] || (a[0] == b[0] && LessEq(a[1..], b[1..]))))
  }

  /** Either the one begins the other, or the first code point in which they differ decides. */
  lemma {:induction false} LessEqExactly(a: string, b: string)
    ensures LessEq(a, b) <==>
              a <= b || exists i: nat :: i < |a| && i < |b| && a[..i] == b[..i] && a[i] < b[i]
  {
    if a != [] && b != [] {
      if a[0] == b[0] {
        LessEqExactly(a[1..], b[1..]);
        assert a == [a[0]] + a[1..] && b == [b[0]] + b[1..];
        if i: nat :| i < |a[1..]| && i < |b[1..]| && a[1..][..i] == b[1..][..i] && a[1..][i] < b[1..][i] {
          assert a[..i + 1] == [a[0]] + a[1..][..i] && b[..i + 1] == [b[0]] + b[1..][..i];
          assert a[i + 1] < b[i + 1];
        }
        if i: nat :| i < |a| && i < |b| && a[..i] == b[..i] && a[i] < b[i] {
          assert a[1..][..i - 1] == a[..i][1..] && b[1..][..i - 1] == b[..i][1..];
          assert a[1..][i - 1] < b[1..][i - 1];
        }
      } else {
        assert a[..0] == b[..0];
        forall i: nat | 0 < i < |a| && i < |b|
          ensures a[..i] != b[..i]
        {
          assert a[..i][0] == a[0] && b[..i][0] == b[0];
        }
      }
    }
  }

  lemma {:induction false} LessEqTotal(a: string, b: string)
    ensures LessEq(a, b) || LessEq(b, a)
    ensures LessEq(a, b) && LessEq(b, a) ==> a == b
  {
    if a != [] && b != [] && a[0] == b[0] {
      LessEqTotal(a[1..], b[1..]);
      assert a == [a[0]] + a[1..] && b == [b[0]] + b[1..];
    }
  }

  lemma {:induction false} LessEqTransitive(a: string, b: string, c: string)
    requires LessEq(a, b) && LessEq(b, c)
    ensures LessEq(a, c)
  {
    if a != [] && a[0] == b[0] == c[0] {
      LessEqTransitive(a[1..], b[1..], c[1..]);
    }
  }

  /** Items sorted by key. */
  function Insert(item: (string, string), sorted: Items): Items {
    if sorted == [] then [item]
    else if LessEq(item.0, sorted[0].0) then [item] + sorted
    else [sorted[0]] + Insert(item, sorted[1..])
  }

  function Sort(items: Items): Items {
    if items == [] then [] else Insert(items[0], Sort(items[1..]))
  }

  predicate Kept(item: (string, string)) {
    item.1 != "" && item.0 in WHITELIST
  }

  function Keep(items: Items): Items {
    if items == [] then [] else (if Kept(items[0]) then [items[0]] else []) + Keep(items[1..])
  }

  function Join(items: Items): string {
    if items == [] then ""
    else if |items| == 1 then items[0].0 + "=" + items[0].1
    else items[0].0 + "=" + items[0].1 + "||" + Join(items[1..])
  }

  function BuildSignString(params: Items): string {
    Join(Keep(Sort(params)))
  }

  /** The parameters that enter the signature. */
  ghost function KeptItems(params: Items): set<(string, string)> {
    set item | item in params && Kept(item)
  }

  ghost predicate StrictlySorted(items: Items) {
    forall i, j :: 0 <= i < j < |items| ==> LessEq(items[i].0, items[j].0) && items[i].0 != items[j].0
  }

  lemma {:induction false} InsertSorted(item: (string, string), sorted: Items)
    requires StrictlySorted(sorted) && forall x :: x in sorted ==> x.0 != item.0
    ensures StrictlySorted(Insert(item, sorted))
    ensures forall x :: x in Insert(item, sorted) <==> x == item || x in sorted
  {
    var r := Insert(item, sorted);
    if sorted != [] {
      var head, rest := sorted[0], sorted[1..];
      assert sorted == [head] + rest;
      LessEqTotal(item.0, head.0);
      if LessEq(item.0, head.0) {
        forall i | 0 < i < |r|
          ensures LessEq(item.0, r[i].0) && item.0 != r[i].0
        {
          assert r[i] == sorted[i - 1] && r[i] in sorted;
          if i > 1 { LessEqTransitive(item.0, head.0, r[i].0); }
        }
      } else {
        InsertSorted(item, rest);
        var tail := Insert(item, rest);
        forall i | 0 <= i < |tail|
          ensures LessEq(head.0, tail[i].0) && head.0 != tail[i].0
        {
          assert tail[i] in tail;
          if tail[i] != item {
            var j :| 0 <= j < |rest| && rest[j] == tail[i];
            assert sorted[j + 1] == tail[i];
          }
        }
        assert r == [head] + tail;
      }
    }
  }

  lemma {:induction false} SortSorted(items: Items)
    requires DistinctKeys(items)
    ensures StrictlySorted(Sort(items))
    ensures forall x :: x in Sort(items) <==> x in items
  {
    if items != [] {
      var rest := items[1..];
      SortSorted(rest);
      assert items == [items[0]] + rest;
      forall x | x in Sort(rest)
        ensures x.0 != items[0].0
      {
        var j :| 0 <= j < |rest| && rest[j] == x;
        assert items[j + 1] == x;
      }
      InsertSorted(items[0], Sort(rest));
    }
  }

  lemma {:induction false} KeepSorted(items: Items)
    requires StrictlySorted(items)
    ensures StrictlySorted(Keep(items))
    ensures forall x :: x in Keep(items) <==> x in items && Kept(x)
  {
    if items != [] {
      var head, rest := items[0], items[1..];
      KeepSorted(rest);
      assert items == [head] + rest;
      forall x | x in Keep(rest)
        ensures LessEq(head.0, x.0) && head.0 != x.0
      {
        var j :| 0 <= j < |rest| && rest[j] == x;
        assert items[j + 1] == x;
      }
    }
  }

  /** A set of items has one sorted enumeration. */
  lemma {:induction false} SortedUnique(a: Items, b: Items)
    requires StrictlySorted(a) && StrictlySorted(b)
    requires forall x :: x in a <==> x in b
    ensures a == b
  {
    if b == [] {
      SameEmptiness(a, b);
    } else {
      SameEmptiness(a, b);
      assert a[0] in b;
      var j :| 0 <= j < |b| && b[j] == a[0];
      assert b[0] in a;
      var i :| 0 <= i < |a| && a[i] == b[0];
      LessEqTotal(a[0].0, b[0].0);
      assert i == 0 && j == 0;
      forall x
        ensures x in a[1..] <==> x in b[1..]
      {
        TailMembers(a, x);
        TailMembers(b, x);
      }
      SortedUnique(a[1..], b[1..]);
      assert a == [a[0]] + a[1..] && b == [b[0]] + b[1..];
    }
  }

  lemma {:induction false} SameEmptiness(a: Items, b: Items)
    requires forall x :: x in a <==> x in b
    ensures a == [] <==> b == []
  {
    if a != [] {
      assert a[0] in a;
    }
    if b != [] {
      assert b[0] in b;
    }
  }

  lemma {:induction false} TailMembers(a: Items, x: (string, string))
    requires a != [] && StrictlySorted(a)
    ensures x in a[1..] <==> x in a && x != a[0]
  {
    assert a == [a[0]] + a[1..];
    if x in a[1..] {
      var j :| 0 <= j < |a[1..]| && a[1..][j] == x;
      assert a[j + 1] == x;
    }
  }

  /** The string depends on nothing but the kept parameters: not on the order they were put in, nor on any parameter
      that is empty or not whitelisted, the signature itself among them. */
  lemma {:induction false} Canonical(a: Items, b: Items)
    requires DistinctKeys(a) && DistinctKeys(b) && KeptItems(a) == KeptItems(b)
    ensures BuildSignString(a) == BuildSignString(b)
  {
    SortSorted(a);
    SortSorted(b);
    KeepSorted(Sort(a));
    KeepSorted(Sort(b));
    forall x
      ensures x in Keep(Sort(a)) <==> x in Keep(Sort(b))
    {
      assert x in KeptItems(a) <==> x in KeptItems(b);
    }
    SortedUnique(Keep(Sort(a)), Keep(Sort(b)));
  }

  /** The twenty parameters that count. */
  predicate Counts(key: string) {
    key in {"a", "v", "lat", "lon", "lang", "deviceId", "appVersion", "ttid", "isH5", "h5Token", "os", "clientId",
            "postData", "time", "requestId", "et", "n4h5", "sid", "chKey", "sp"}
  }

  /** Each of them does, and what is empty or any other, the signature itself among them, leaves the string as it is. */
  lemma {:induction false} CountsExactly(params: Items, key: string, value: string)
    requires DistinctKeys(params + [(key, value)])
    ensures !Counts(key) || value == "" ==> BuildSignString(params + [(key, value)]) == BuildSignString(params)
    ensures Counts(key) && value != "" ==> BuildSignString([(key, value)]) == key + "=" + value
  {
    var more := params + [(key, value)];
    forall i, j | 0 <= i < j < |params|
      ensures params[i].0 != params[j].0
    {
      assert more[i].0 != more[j].0;
    }
    if !Counts(key) || value == "" {
      assert !Kept((key, value));
      assert KeptItems(more) == KeptItems(params);
      Canonical(more, params);
    } else {
      assert Kept((key, value));
      assert Sort([(key, value)]) == [(key, value)] && Keep([(key, value)]) == [(key, value)];
    }
  }

  // ----- undoing it -----

  /** The part of the string before the first `c`, or all of it. */
  function Until(s: string, c: char): string {
    if s == [] || s[0] == c then [] else [s[0]] + Until(s[1..], c)
  }

  function From(s: string, n: nat): (r: string)
    ensures |r| <= |s| && (n > 0 && s != [] ==> |r| < |s|)
  {
    if n <= |s| then s[n..] else []
  }

  function Unjoin(s: string): Items
    decreases |s|
  {
    if s == [] then []
    else
      var key := Until(s, '=');
      var rest := From(s, |key| + 1);
      var value := Until(rest, '|');
      [(key, value)] + Unjoin(From(rest, |value| + 2))
  }

  lemma {:induction false} UntilFound(before: string, c: char, after: string)
    requires c !in before
    ensures Until(before + [c] + after, c) == before
  {
    var s := before + [c] + after;
    if before != [] {
      assert s[1..] == before[1..] + [c] + after;
      UntilFound(before[1..], c, after);
    }
  }

  lemma {:induction false} UntilEnd(s: string, c: char)
    requires c !in s
    ensures Until(s, c) == s
  {
    if s != [] {
      UntilEnd(s[1..], c);
    }
  }

  lemma ShortKeyWithoutEquals(key: string)
    requires key in {"a", "v", "lat", "lon", "os", "et", "sid", "sp", "lang", "ttid", "isH5", "time", "n4h5", "chKey"}
    ensures '=' !in key
  {}

  lemma LongKeyWithoutEquals(key: string)
    requires key in {"deviceId", "h5Token", "clientId", "postData", "appVersion", "requestId"}
    ensures '=' !in key
  {}

  lemma WhitelistWithoutEquals(key: string)
    requires key in WHITELIST
    ensures '=' !in key
  {
    if |key| <= 5 {
      ShortKeyWithoutEquals(key);
    } else {
      LongKeyWithoutEquals(key);
    }
  }

  /** Values that cannot be mistaken for a separator. */
  ghost predicate Separable(items: Items) {
    forall i :: 0 <= i < |items| && Kept(items[i]) ==> '|' !in items[i].1
  }

  /** An entry whose parts cannot be mistaken for what separates them. */
  predicate Plain(item: (string, string)) {
    '=' !in item.0 && '|' !in item.1
  }

  predicate AllPlain(items: Items) {
    items == [] || (Plain(items[0]) && AllPlain(items[1..]))
  }

  lemma {:induction false} EachPlain(items: Items)
    requires forall i :: 0 <= i < |items| ==> Plain(items[i])
    ensures AllPlain(items)
  {
    if items != [] {
      EachPlain(items[1..]);
    }
  }

  lemma {:induction false} UnjoinJoin(items: Items)
    requires AllPlain(items)
    ensures Unjoin(Join(items)) == items
  {
    if items != [] {
      if |items| == 1 {
        UnjoinOne(items);
      } else {
        UnjoinFirst(items);
        UnjoinJoin(items[1..]);
      }
    }
  }

  lemma {:induction false} UnjoinOne(items: Items)
    requires |items| == 1 && Plain(items[0])
    ensures Unjoin(Join(items)) == items
  {
    JoinSplits(items);
    UnjoinLast(items[0].0, items[0].1);
  }

  lemma {:induction false} UnjoinFirst(items: Items)
    requires |items| > 1 && Plain(items[0])
    ensures Unjoin(Join(items)) == [items[0]] + Unjoin(Join(items[1..]))
  {
    JoinSplits(items);
    UnjoinMore(items[0].0, items[0].1, Join(items[1..]));
  }

  /** One entry is read off. */
  lemma {:induction false} UnjoinEntry(key: string, value: string, after: string)
    requires '=' !in key && Until(after, '|') == value
    ensures Unjoin(key + "=" + after) == [(key, value)] + Unjoin(From(after, |value| + 2))
  {
    var s := key + "=" + after;
    EntrySplits(key, after);
    assert Unjoin(s) == [(key, Until(From(s, |key| + 1), '|'))] + Unjoin(From(after, |value| + 2));
  }

  lemma {:induction false} EntrySplits(key: string, after: string)
    requires '=' !in key
    ensures Until(key + "=" + after, '=') == key && From(key + "=" + after, |key| + 1) == after
  {
    assert key + "=" + after == key + ['='] + after;
    UntilFound(key, '=', after);
  }

  lemma {:induction false} UnjoinLast(key: string, value: string)
    requires '=' !in key && '|' !in value
    ensures Unjoin(key + "=" + value) == [(key, value)]
  {
    UntilEnd(value, '|');
    UnjoinEntry(key, value, value);
    assert From(value, |value| + 2) == [];
  }

  lemma {:induction false} UnjoinMore(key: string, value: string, rest: string)
    requires '=' !in key && '|' !in value
    ensures Unjoin(key + "=" + (value + "||" + rest)) == [(key, value)] + Unjoin(rest)
  {
    ValueFound(value, rest);
    UnjoinEntry(key, value, value + "||" + rest);
    assert From(value + "||" + rest, |value| + 2) == rest;
  }

  lemma {:induction false} ValueFound(value: string, rest: string)
    requires '|' !in value
    ensures Until(value + "||" + rest, '|') == value && (value + "||" + rest)[|value| + 2..] == rest
  {
    assert value + "||" + rest == value + ['|'] + ("|" + rest);
    UntilFound(value, '|', "|" + rest);
  }

  /** For parameters whose kept values hold no bar, the string determines the kept parameters and is determined by
      them. */
  lemma {:induction false} SignStringExact(a: Items, b: Items)
    requires DistinctKeys(a) && DistinctKeys(b) && Separable(a) && Separable(b)
    ensures BuildSignString(a) == BuildSignString(b) <==> KeptItems(a) == KeptItems(b)
  {
    if KeptItems(a) == KeptItems(b) {
      Canonical(a, b);
    }
    if BuildSignString(a) == BuildSignString(b) {
      Undone(a);
      Undone(b);
      assert KeptItems(a) == KeptItems(b);
    }
  }

  /** Read back, the string gives the kept parameters, in the order of their keys. */
  lemma {:induction false} Undone(a: Items)
    requires DistinctKeys(a) && Separable(a)
    ensures StrictlySorted(Unjoin(BuildSignString(a)))
    ensures forall x :: x in Unjoin(BuildSignString(a)) <==> x in KeptItems(a)
  {
    SortSorted(a);
    KeepSorted(Sort(a));
    var items := Keep(Sort(a));
    forall i | 0 <= i < |items|
      ensures Plain(items[i])
    {
      assert items[i] in items;
      WhitelistWithoutEquals(items[i].0);
      var j :| 0 <= j < |a| && a[j] == items[i];
    }
    EachPlain(items);
    UnjoinJoin(items);
  }

  // ----- which strings have a second reading -----

  /** The parameters that enter the string, in order. */
  function Entering(params: Items): Items {
    Keep(Sort(params))
  }

  lemma {:induction false} EnteringFacts(params: Items)
    requires DistinctKeys(params)
    ensures StrictlySorted(Entering(params))
    ensures forall x :: x in Entering(params) <==> x in KeptItems(params)
    ensures forall i :: 0 <= i < |Entering(params)| ==> Kept(Entering(params)[i])
  {
    SortSorted(params);
    KeepSorted(Sort(params));
    forall i | 0 <= i < |Entering(params)|
      ensures Kept(Entering(params)[i])
    {
      assert Entering(params)[i] in Entering(params);
    }
  }

  /** Items that are in order and all kept enter as they are. */
  lemma {:induction false} EnteringItself(items: Items)
    requires StrictlySorted(items) && forall i :: 0 <= i < |items| ==> Kept(items[i])
    ensures DistinctKeys(items) && Entering(items) == items
  {
    SortSorted(items);
    SortedUnique(Sort(items), items);
    KeepSorted(items);
    SortedUnique(Keep(items), items);
  }

  /** Other parameters have the same string. */
  ghost predicate Ambiguous(a: Items) {
    exists b: Items :: DistinctKeys(b) && BuildSignString(b) == BuildSignString(a) && KeptItems(b) != KeptItems(a)
  }

  /** The value reads as the end of one entry, of at least a character, and another under a whitelisted key that comes
      later in the order. */
  predicate Hides(key: string, value: string, before: string, other: string, rest: string) {
    && value == before + ("||" + other + "=" + rest) && before != "" && rest != ""
    && other in WHITELIST && LessEq(key, other) && key != other
  }

  ghost predicate HidesAny(item: (string, string)) {
    exists before, other, rest :: Hides(item.0, item.1, before, other, rest)
  }

  /** A sign string has a second reading if and only if two or more parameters enter it, or the value of the only one
      hides an entry. */
  lemma {:induction false} AmbiguousExactly(a: Items)
    requires DistinctKeys(a)
    ensures var kept := Entering(a);
            Ambiguous(a) <==>
              || |kept| >= 2
              || (|kept| == 1 && HidesAny(kept[0]))
  {
    var kept := Entering(a);
    if |kept| >= 2 {
      Swallowed(a);
    } else if |kept| == 1 {
      if HidesAny(kept[0]) {
        var before, other, rest :| Hides(kept[0].0, kept[0].1, before, other, rest);
        Divided(a, before, other, rest);
      }
    }
    forall b: Items | DistinctKeys(b) && BuildSignString(b) == BuildSignString(a) && KeptItems(b) != KeptItems(a)
      ensures |kept| >= 2 || (|kept| == 1 && HidesAny(kept[0]))
    {
      SecondReading(a, b);
    }
  }

  /** Two or more entries read as one, whose value swallows the others. */
  lemma {:induction false} Swallowed(a: Items)
    requires DistinctKeys(a) && |Entering(a)| >= 2
    ensures Ambiguous(a)
  {
    var kept := Entering(a);
    EnteringFacts(a);
    JoinStarts(kept);
    var b := [(kept[0].0, AfterKey(kept))];
    assert Kept(kept[0]) && Kept(b[0]);
    EnteringItself(b);
    EnteringFacts(b);
    assert kept[1] in KeptItems(a) && kept[1] !in b;
    assert BuildSignString(b) == BuildSignString(a) && KeptItems(b) != KeptItems(a);
  }

  /** One entry whose value hides another reads as two. */
  lemma {:induction false} Divided(a: Items, before: string, other: string, rest: string)
    requires DistinctKeys(a) && |Entering(a)| == 1
    requires Hides(Entering(a)[0].0, Entering(a)[0].1, before, other, rest)
    ensures Ambiguous(a)
  {
    EnteringFacts(a);
    var (key, value) := Entering(a)[0];
    var b := [(key, before), (other, rest)];
    assert Kept(Entering(a)[0]);
    EnteringItself(b);
    EnteringFacts(b);
    DividedJoins(key, value, before, other, rest);
    assert Entering(a) == [(key, value)] && Join(Entering(a)) == key + "=" + value;
    assert b[1] in b && b[1] in KeptItems(b) && b[1] !in Entering(a) && b[1] !in KeptItems(a);
    assert BuildSignString(b) == BuildSignString(a) && KeptItems(b) != KeptItems(a);
  }

  lemma {:induction false} DividedJoins(key: string, value: string, before: string, other: string, rest: string)
    requires Hides(key, value, before, other, rest)
    ensures Join([(key, before), (other, rest)]) == key + "=" + value
  {
    var b := [(key, before), (other, rest)];
    assert b[1..] == [(other, rest)];
    TwoJoined(key + "=", before, "||", other + "=" + rest);
    assert Join(b) == key + "=" + before + "||" + (other + "=" + rest);
    assert value == before + ("||" + (other + "=" + rest));
  }

  lemma {:induction false} TwoJoined(a: string, b: string, c: string, d: string)
    ensures ((a + b) + c) + d == a + (b + (c + d))
  {}

  lemma {:induction false} SecondReading(a: Items, b: Items)
    requires DistinctKeys(a) && DistinctKeys(b)
    requires BuildSignString(b) == BuildSignString(a) && KeptItems(b) != KeptItems(a)
    ensures var kept := Entering(a);
            |kept| >= 2 || (|kept| == 1 && HidesAny(kept[0]))
  {
    var kept, read := Entering(a), Entering(b);
    EnteringFacts(a);
    EnteringFacts(b);
    Distinguished(a, b);
    JoinStarts(kept);
    JoinStarts(read);
    if |kept| == 1 {
      if |read| == 1 {
        OneAsOne(kept, read);
      } else {
        OneAsMany(kept, read);
      }
    }
  }

  lemma {:induction false} Distinguished(a: Items, b: Items)
    requires DistinctKeys(a) && DistinctKeys(b) && KeptItems(b) != KeptItems(a)
    ensures Entering(a) != Entering(b)
  {
    EnteringFacts(a);
    EnteringFacts(b);
    if x :| x in KeptItems(a) && x !in KeptItems(b) {
      assert x in Entering(a) && x !in Entering(b);
    } else {
      var y :| y in KeptItems(b) && y !in KeptItems(a);
      assert y in Entering(b) && y !in Entering(a);
    }
  }

  lemma {:induction false} OneAsOne(kept: Items, read: Items)
    requires |kept| == |read| == 1 && Kept(kept[0]) && Kept(read[0]) && Join(kept) == Join(read)
    ensures kept == read
  {
    SameStart(kept, read);
    assert kept == [kept[0]] && read == [read[0]];
  }

  lemma {:induction false} OneAsMany(kept: Items, read: Items)
    requires |kept| == 1 && Kept(kept[0]) && |read| > 1 && StrictlySorted(read) && Join(kept) == Join(read)
    requires forall i :: 0 <= i < |read| ==> Kept(read[i])
    ensures HidesAny(kept[0])
  {
    SameStart(kept, read);
    JoinStarts(read[1..]);
    var before, other, rest := read[0].1, read[1].0, AfterKey(read[1..]);
    assert Kept(read[0]) && Kept(read[1]);
    HidesWhole(kept[0].1, before, Join(read[1..]), other, rest);
    assert Hides(kept[0].0, kept[0].1, before, other, rest);
  }

  lemma {:induction false} HidesWhole(value: string, before: string, after: string, other: string, rest: string)
    requires value == before + "||" + after && after == other + "=" + rest
    ensures value == before + ("||" + other + "=" + rest)
  {}

  /** What follows the first key and its equals sign. */
  function AfterKey(items: Items): string
    requires items != []
  {
    if |items| == 1 then items[0].1 else items[0].1 + "||" + Join(items[1..])
  }

  lemma {:induction false} JoinStarts(items: Items)
    requires forall i :: 0 <= i < |items| ==> Kept(items[i])
    ensures items == [] <==> Join(items) == ""
    ensures items != [] ==>
              && Join(items) == items[0].0 + "=" + AfterKey(items) && AfterKey(items) != ""
              && Until(Join(items), '=') == items[0].0
  {
    if items != [] {
      assert Kept(items[0]);
      JoinSplits(items);
      WhitelistWithoutEquals(items[0].0);
      UntilFound(items[0].0, '=', AfterKey(items));
    }
  }

  lemma {:induction false} JoinSplits(items: Items)
    requires items != []
    ensures Join(items) == items[0].0 + "=" + AfterKey(items)
    ensures items[0].1 != "" ==> AfterKey(items) != ""
  {}

  lemma {:induction false} SameStart(a: Items, b: Items)
    requires a != [] && b != [] && Join(a) == Join(b)
    requires (forall i :: 0 <= i < |a| ==> Kept(a[i])) && (forall i :: 0 <= i < |b| ==> Kept(b[i]))
    ensures a[0].0 == b[0].0 && AfterKey(a) == AfterKey(b)
  {
    JoinStarts(a);
    JoinStarts(b);
    SameRest(a[0].0 + "=", AfterKey(a), AfterKey(b));
  }

  lemma {:induction false} SameRest(start: string, a: string, b: string)
    requires start + a == start + b
    ensures a == b
  {
    assert (start + a)[|start|..] == a && (start + b)[|start|..] == b;
  }

  /** For instance. */
  lemma {:induction false} BarsConfuse()
    ensures var a, b := [("a", "x||v=y")], [("v", "y"), ("a", "x")];
            && DistinctKeys(a) && DistinctKeys(b) && !Separable(a) && Separable(b)
            && BuildSignString(a) == BuildSignString(b) && KeptItems(a) != KeptItems(b)
  {
    var a, b := [("a", "x||v=y")], [("v", "y"), ("a", "x")];
    assert Sort(a) == a;
    assert Sort([("a", "x")]) == [("a", "x")];
    assert Sort(b) == [("a", "x"), ("v", "y")];
    assert Keep([("v", "y")]) == [("v", "y")];
    assert Keep(Sort(b)) == [("a", "x"), ("v", "y")];
    assert Join([("v", "y")]) == "v=y";
    assert BuildSignString(b) == "a=x||v=y";
    assert BuildSignString(a) == "a=x||v=y";
    assert a[0].1[1] == '|' && Kept(a[0]);
    assert ("a", "x") in KeptItems(b) && ("a", "x") !in KeptItems(a);
  }

  function SwapSignString(value: string): string {
    if |value| != 32 then value else value[8..16] + value[0..8] + value[24..32] + value[16..24]
  }

  /** The reordering of a digest exchanges neighbouring blocks of eight; it undoes itself, so no two digests are
      confused, and leaves a value of any other length alone. */
  lemma {:induction false} SwapTwice(value: string)
    ensures SwapSignString(SwapSignString(value)) == value
    ensures |SwapSignString(value)| == |value|
    ensures |value| == 32 ==>
              forall i :: 0 <= i < 32 ==> SwapSignString(value)[i] == value[if i % 16 < 8 then i + 8 else i - 8]
    ensures |value| != 32 ==> SwapSignString(value) == value
  {
    if |value| == 32 {
      var a, b, c, d := value[0..8], value[8..16], value[16..24], value[24..32];
      assert value == a + b + c + d;
      var swapped := b + a + d + c;
      assert SwapSignString(value) == swapped;
      assert swapped[0..8] == b && swapped[8..16] == a && swapped[16..24] == d && swapped[24..32] == c;
    }
  }
}

/**
 Reordering body fields and request headers to a fingerprint, and stripping the
 proxy's own body markers. `Fold` stands for `toLowerCase`.
 */
module HeaderOrder {
  import opened Prelude

  // ----- tests on keys -----

  type Test = string -> bool

  function In(names: seq<string>): Test {
    (key: string) => key in names
  }

  function Is(name: string): Test {
    (key: string) => key == name
  }

  function Either(a: Test, b: Test): Test {
    (key: string) => a(key) || b(key)
  }

  // ----- body fields -----

  /** The fields a list names and the object has, assigned in list order. */
  function Listed<V>(o: Object<V>, order: seq<string>): Object<V> {
    if order == [] then []
    else
      var earlier, key := Listed(o, order[..|order| - 1]), order[|order| - 1];
      if Get(o, key).Some? then Set(earlier, key, Get(o, key).value) else earlier
  }

  function Unlisted<V>(o: Object<V>, order: seq<string>): Object<V> {
    Without(o, In(order))
  }

  function OrderFields<V>(o: Object<V>, order: seq<string>): Object<V> {
    if order == [] then o else Listed(o, order) + Unlisted(o, order)
  }

  lemma {:induction false} GetConcat<V>(a: Object<V>, b: Object<V>, key: string)
    ensures Get(a + b, key) == if Get(a, key).Some? then Get(a, key) else Get(b, key)
  {
    if a == [] {
      assert a + b == b;
    } else {
      GetConcat(a[1..], b, key);
      HeadOfConcat(a, b);
    }
  }

  lemma {:induction false} GetListed<V>(o: Object<V>, order: seq<string>, key: string)
    ensures Get(Listed(o, order), key) == if key in order then Get(o, key) else None
  {
    if order != [] {
      var p, last := order[..|order| - 1], order[|order| - 1];
      assert order == p + [last];
      GetListed(o, p, key);
      if Get(o, last).Some? {
        GetAfterSet(Listed(o, p), last, Get(o, last).value, key);
      }
    }
  }

  /** Ordering keeps the value of every key. */
  lemma {:induction false} OrderKeepsTheMapping<V>(o: Object<V>, order: seq<string>, key: string)
    ensures Get(OrderFields(o, order), key) == Get(o, key)
  {
    GetConcat(Listed(o, order), Unlisted(o, order), key);
    GetListed(o, order, key);
    GetAfterWithout(o, In(order), key);
  }

  function FirstIndex(order: seq<string>, key: string): (i: nat)
    ensures i <= |order|
    ensures i < |order| ==> order[i] == key
    ensures forall j :: 0 <= j < i ==> order[j] != key
  {
    if order == [] then 0 else if order[0] == key then 0 else 1 + FirstIndex(order[1..], key)
  }

  lemma {:induction false} GetAt<V>(o: Object<V>, i: nat)
    requires i < |o|
    ensures Get(o, o[i].0).Some?
  {
    if i > 0 {
      GetAt(o[1..], i - 1);
    }
  }

  /** The listed part has every key once, in the order of the list. */
  lemma {:induction false} ListedInOrder<V>(o: Object<V>, order: seq<string>)
    ensures forall i, j :: 0 <= i < j < |Listed(o, order)| ==>
              FirstIndex(order, Listed(o, order)[i].0) < FirstIndex(order, Listed(o, order)[j].0)
  {
    if order != [] {
      var p, last := order[..|order| - 1], order[|order| - 1];
      var l := Listed(o, p);
      ListedInOrder(o, p);
      forall i | 0 <= i < |l|
        ensures FirstIndex(order, l[i].0) == FirstIndex(p, l[i].0) < |p|
      {
        GetAt(l, i);
        GetListed(o, p, l[i].0);
        FirstIndexOfPrefix(p, last, l[i].0);
        assert order == p + [last];
      }
      if Get(o, last).Some? {
        GetListed(o, p, last);
        if last in p {
          SetSame(l, last, Get(o, last).value);
        } else {
          SetAbsentAppends(l, last, Get(o, last).value);
          assert FirstIndex(order, last) == |p|;
        }
      }
    }
  }

  lemma {:induction false} FirstIndexOfPrefix(p: seq<string>, last: string, key: string)
    requires key in p
    ensures FirstIndex(p + [last], key) == FirstIndex(p, key) < |p|
  {
    if p[0] != key {
      FirstIndexOfPrefix(p[1..], last, key);
      assert (p + [last])[1..] == p[1..] + [last];
    }
  }

  lemma {:induction false} WithoutConcat<V>(a: Object<V>, b: Object<V>, gone: Test)
    ensures Without(a + b, gone) == Without(a, gone) + Without(b, gone)
  {
    if a == [] {
      assert a + b == b;
    } else {
      WithoutConcat(a[1..], b, gone);
      HeadOfConcat(a, b);
      Associative([a[0]], Without(a[1..], gone), Without(b, gone));
    }
  }

  lemma {:induction false} WithoutAll<V>(o: Object<V>, gone: Test)
    requires forall i :: 0 <= i < |o| ==> gone(o[i].0)
    ensures Without(o, gone) == []
  {
    if o != [] {
      WithoutAll(o[1..], gone);
    }
  }

  lemma {:induction false} WithoutTwice<V>(o: Object<V>, a: Test, b: Test)
    ensures Without(Without(o, a), b) == Without(o, Either(a, b))
    ensures Without(Without(o, a), b) == Without(Without(o, b), a)
  {
    if o != [] {
      WithoutTwice(o[1..], a, b);
      var x, y := Without(o[1..], a), Without(o[1..], b);
      assert ([o[0]] + x)[1..] == x && ([o[0]] + y)[1..] == y;
    }
  }

  lemma {:induction false} WithoutSameTwice<V>(o: Object<V>, gone: Test)
    ensures Without(Without(o, gone), gone) == Without(o, gone)
  {
    if o != [] {
      WithoutSameTwice(o[1..], gone);
      var x := Without(o[1..], gone);
      assert ([o[0]] + x)[1..] == x;
    }
  }

  lemma {:induction false} ListedReadsTheMapping<V>(a: Object<V>, b: Object<V>, order: seq<string>)
    requires forall key :: Get(a, key) == Get(b, key)
    ensures Listed(a, order) == Listed(b, order)
  {
    if order != [] {
      ListedReadsTheMapping(a, b, order[..|order| - 1]);
    }
  }

  lemma {:induction false} ListedIsAllListed<V>(o: Object<V>, order: seq<string>)
    ensures Unlisted(Listed(o, order), order) == []
  {
    var l := Listed(o, order);
    forall i | 0 <= i < |l|
      ensures l[i].0 in order
    {
      GetAt(l, i);
      GetListed(o, order, l[i].0);
    }
    WithoutAll(l, In(order));
  }

  lemma {:induction false} UnlistedOfOrdered<V>(o: Object<V>, order: seq<string>)
    ensures Unlisted(Listed(o, order) + Unlisted(o, order), order) == Unlisted(o, order)
  {
    var l, r := Listed(o, order), Unlisted(o, order);
    WithoutConcat(l, r, In(order));
    ListedIsAllListed(o, order);
    WithoutSameTwice(o, In(order));
    assert [] + r == r;
  }

  /** Ordering twice is ordering once. */
  lemma {:induction false} OrderTwice<V>(o: Object<V>, order: seq<string>)
    ensures OrderFields(OrderFields(o, order), order) == OrderFields(o, order)
  {
    if order != [] {
      forall key
        ensures Get(OrderFields(o, order), key) == Get(o, key)
      {
        OrderKeepsTheMapping(o, order, key);
      }
      ListedReadsTheMapping(OrderFields(o, order), o, order);
      UnlistedOfOrdered(o, order);
    }
  }

  lemma {:induction false} WithoutIsPart<V>(o: Object<V>, gone: Test)
    ensures forall i :: 0 <= i < |Without(o, gone)| ==> Without(o, gone)[i] in o && !gone(Without(o, gone)[i].0)
    ensures UniqueKeys(o) ==> UniqueKeys(Without(o, gone))
  {
    if o != [] {
      WithoutIsPart(o[1..], gone);
      var rest := Without(o[1..], gone);
      if UniqueKeys(o) {
        forall i | 0 <= i < |rest|
          ensures rest[i].0 != o[0].0
        {
          assert rest[i] in o[1..];
        }
      }
    }
  }

  /** No key is listed twice in the result. */
  lemma {:induction false} OrderKeepsUniqueKeys<V>(o: Object<V>, order: seq<string>)
    requires UniqueKeys(o)
    ensures UniqueKeys(OrderFields(o, order))
  {
    var l, r := Listed(o, order), Unlisted(o, order);
    ListedInOrder(o, order);
    WithoutIsPart(o, In(order));
    forall i, j | 0 <= i < |l| && 0 <= j < |r|
      ensures l[i].0 != r[j].0
    {
      GetAt(l, i);
      GetListed(o, order, l[i].0);
    }
  }

  /** The loops of `orderFields`: listed fields first, then what the set of remaining keys still holds. */
  method OrderFieldsLoop<V>(obj: Object<V>, fieldOrder: seq<string>) returns (result: Object<V>)
    requires UniqueKeys(obj)
    ensures result == OrderFields(obj, fieldOrder)
  {
    if fieldOrder == [] {
      return obj;
    }
    result := [];
    var remaining := obj;
    NothingGone(obj, In([]));
    SameTest(obj, In([]), In(fieldOrder[..0]));
    for i := 0 to |fieldOrder|
      invariant result == Listed(obj, fieldOrder[..i])
      invariant remaining == Unlisted(obj, fieldOrder[..i])
    {
      var key := fieldOrder[i];
      assert fieldOrder[..i + 1][..i] == fieldOrder[..i] && fieldOrder[..i + 1] == fieldOrder[..i] + [key];
      UnlistedOneMore(obj, fieldOrder[..i], key);
      if Get(obj, key).Some? {
        result := Set(result, key, Get(obj, key).value);
        remaining := Without(remaining, Is(key));
      } else {
        NothingToDelete(remaining, key);
      }
    }
    assert fieldOrder[..|fieldOrder|] == fieldOrder;
    OrderKeepsUniqueKeys(obj, fieldOrder);
    ghost var listed, whole := result, OrderFields(obj, fieldOrder);
    for i := 0 to |remaining|
      invariant result == listed + remaining[..i]
    {
      assert whole[|result|] == remaining[i];
      AbsentBefore(whole, |result|);
      assert whole[..|result|] == result;
      SetAbsentAppends(result, remaining[i].0, remaining[i].1);
      result := Set(result, remaining[i].0, remaining[i].1);
    }
    assert remaining[..|remaining|] == remaining;
  }

  lemma {:induction false} AbsentBefore<V>(o: Object<V>, i: nat)
    requires i < |o| && UniqueKeys(o)
    ensures Get(o[..i], o[i].0).None?
  {
    GetIsIndex(o[..i], o[i].0);
  }

  lemma {:induction false} UnlistedOneMore<V>(o: Object<V>, order: seq<string>, key: string)
    ensures Unlisted(o, order + [key]) == Without(Unlisted(o, order), Is(key))
    ensures Get(o, key).None? ==> Get(Unlisted(o, order), key).None?
  {
    WithoutTwice(o, In(order), Is(key));
    SameTest(o, In(order + [key]), Either(In(order), Is(key)));
    GetAfterWithout(o, In(order), key);
  }

  lemma {:induction false} SameTest<V>(o: Object<V>, a: Test, b: Test)
    requires forall k :: a(k) == b(k)
    ensures Without(o, a) == Without(o, b)
  {
    if o != [] {
      SameTest(o[1..], a, b);
    }
  }

  lemma {:induction false} NothingGone<V>(o: Object<V>, gone: Test)
    requires forall i :: 0 <= i < |o| ==> !gone(o[i].0)
    ensures Without(o, gone) == o
  {
    if o != [] {
      NothingGone(o[1..], gone);
      assert o == [o[0]] + o[1..];
    }
  }

  lemma {:induction false} NothingToDelete<V>(o: Object<V>, key: string)
    requires Get(o, key).None?
    ensures Without(o, Is(key)) == o
  {
    GetIsIndex(o, key);
    NothingGone(o, Is(key));
  }

  /** With an order, the first `n` fields are those it lists, in its order; then come the others, as they were. */
  lemma {:induction false} ListedFieldsFirst<V>(o: Object<V>, order: seq<string>) returns (n: nat)
    requires order != []
    ensures var r := OrderFields(o, order);
            && n <= |r|
            && InListOrder(r[..n], order)
            && r[n..] == Without(o, In(order))
  {
    var listed := Listed(o, order);
    n := |listed|;
    ListedInOrder(o, order);
    forall j | 0 <= j < n
      ensures FirstIndex(order, listed[j].0) < |order|
    {
      GetAt(listed, j);
      GetListed(o, order, listed[j].0);
    }
    assert OrderFields(o, order)[..n] == listed;
  }

  // ----- headers, matched without case -----

  /** Folded name to spelling and value; a later header replaces an earlier one but keeps its place. */
  function CaseMap(fold: Fold, headers: Object<string>): Object<(string, string)> {
    if headers == [] then []
    else Set(CaseMap(fold, headers[..|headers| - 1]), fold(headers[|headers| - 1].0), headers[|headers| - 1])
  }

  function Entries(m: Object<(string, string)>): (r: Object<string>)
    ensures |r| == |m|
    ensures forall i :: 0 <= i < |m| ==> r[i] == m[i].1
  {
    seq(|m|, i requires 0 <= i < |m| => m[i].1)
  }

  function OrderHeaders(fold: Fold, headers: Object<string>, order: seq<string>): Object<string> {
    if order == [] then headers
    else Entries(OrderFields(CaseMap(fold, headers), MapSeq(fold, order)))
  }

  ghost predicate KeyedByFold(fold: Fold, m: Object<(string, string)>) {
    UniqueKeys(m) && forall i :: 0 <= i < |m| ==> m[i].0 == fold(m[i].1.0)
  }

  lemma {:induction false} CaseMapIsKeyed(fold: Fold, headers: Object<string>)
    ensures KeyedByFold(fold, CaseMap(fold, headers))
  {
    if headers != [] {
      var p, last := headers[..|headers| - 1], headers[|headers| - 1];
      CaseMapIsKeyed(fold, p);
      var m := CaseMap(fold, p);
      SetKeepsUniqueKeys(m, fold(last.0), last);
      var n := Set(m, fold(last.0), last);
      forall i | 0 <= i < |n|
        ensures n[i].0 == fold(n[i].1.0)
      {
        if n[i] != (fold(last.0), last) {
          assert n[i] in m;
        }
      }
    }
  }

  /** The header a folded name stands for: the last one written under it. */
  ghost predicate LastWritten(fold: Fold, headers: Object<string>, name: string, header: (string, string)) {
    exists i :: 0 <= i < |headers| && headers[i] == header && fold(header.0) == name
                && forall j :: i < j < |headers| ==> fold(headers[j].0) != name
  }

  lemma {:induction false} CaseMapKeepsTheLast(fold: Fold, headers: Object<string>, name: string)
    ensures Get(CaseMap(fold, headers), name).None? <==> forall i :: 0 <= i < |headers| ==> fold(headers[i].0) != name
    ensures Get(CaseMap(fold, headers), name).Some? ==> LastWritten(fold, headers, name, Get(CaseMap(fold, headers), name).value)
  {
    if headers != [] {
      var p, last := headers[..|headers| - 1], headers[|headers| - 1];
      CaseMapKeepsTheLast(fold, p, name);
      GetAfterSet(CaseMap(fold, p), fold(last.0), last, name);
      assert headers == p + [last];
      if fold(last.0) == name {
        assert headers[|p|] == last;
        assert LastWritten(fold, headers, name, last);
      } else if Get(CaseMap(fold, p), name).Some? {
        var header := Get(CaseMap(fold, p), name).value;
        var i :| 0 <= i < |p| && p[i] == header && forall j :: i < j < |p| ==> fold(p[j].0) != name;
        assert headers[i] == header;
        assert LastWritten(fold, headers, name, header);
      }
    }
  }

  lemma {:induction false} CaseMapOfKeyed(fold: Fold, m: Object<(string, string)>)
    requires KeyedByFold(fold, m)
    ensures CaseMap(fold, Entries(m)) == m
  {
    if m != [] {
      var p, last := m[..|m| - 1], m[|m| - 1];
      CaseMapOfKeyed(fold, p);
      assert Entries(m)[..|m| - 1] == Entries(p);
      AbsentBefore(m, |m| - 1);
      SetAbsentAppends(p, last.0, last.1);
      assert m == p + [last];
    }
  }

  lemma {:induction false} OrderedMapIsKeyed(fold: Fold, m: Object<(string, string)>, order: seq<string>)
    requires KeyedByFold(fold, m)
    ensures KeyedByFold(fold, OrderFields(m, order))
  {
    var r := OrderFields(m, order);
    OrderKeepsUniqueKeys(m, order);
    forall i | 0 <= i < |r|
      ensures r[i].0 == fold(r[i].1.0)
    {
      GetOwnValue(r, i);
      OrderKeepsTheMapping(m, order, r[i].0);
      GetIsIndex(m, r[i].0);
    }
  }

  /** No two headers have the same name ignoring case. */
  ghost predicate OnePerName(fold: Fold, headers: Object<string>) {
    forall i, j :: 0 <= i < j < |headers| ==> fold(headers[i].0) != fold(headers[j].0)
  }

  ghost predicate EachIsLastWritten(fold: Fold, headers: Object<string>, r: Object<string>) {
    forall i :: 0 <= i < |r| ==> LastWritten(fold, headers, fold(r[i].0), r[i])
  }

  ghost predicate NamesAreKept(fold: Fold, headers: Object<string>, r: Object<string>) {
    forall k :: 0 <= k < |headers| ==> exists i :: 0 <= i < |r| && fold(r[i].0) == fold(headers[k].0)
  }

  lemma {:induction false} ReorderedHeaders(fold: Fold, headers: Object<string>, order: seq<string>)
    requires order != []
    ensures var r := OrderHeaders(fold, headers, order);
            OnePerName(fold, r) && EachIsLastWritten(fold, headers, r) && NamesAreKept(fold, headers, r)
  {
    var m := CaseMap(fold, headers);
    var o := OrderFields(m, MapSeq(fold, order));
    CaseMapIsKeyed(fold, headers);
    OrderedMapIsKeyed(fold, m, MapSeq(fold, order));
    forall i | 0 <= i < |o|
      ensures LastWritten(fold, headers, o[i].0, o[i].1)
    {
      GetOwnValue(o, i);
      OrderKeepsTheMapping(m, MapSeq(fold, order), o[i].0);
      CaseMapKeepsTheLast(fold, headers, o[i].0);
    }
    forall k | 0 <= k < |headers|
      ensures exists i :: 0 <= i < |o| && o[i].0 == fold(headers[k].0)
    {
      CaseMapKeepsTheLast(fold, headers, fold(headers[k].0));
      OrderKeepsTheMapping(m, MapSeq(fold, order), fold(headers[k].0));
      GetIsIndex(o, fold(headers[k].0));
    }
  }

  /** One header per name ignoring case, exactly unless an empty order meets case variants; then each is the last one written under its name. No name is ever lost. */
  lemma {:induction false} OneHeaderPerName(fold: Fold, headers: Object<string>, order: seq<string>)
    ensures var r := OrderHeaders(fold, headers, order);
            && (OnePerName(fold, r) <==> order != [] || OnePerName(fold, headers))
            && (OnePerName(fold, r) ==> EachIsLastWritten(fold, headers, r))
            && NamesAreKept(fold, headers, r)
  {
    if order != [] {
      ReorderedHeaders(fold, headers, order);
    } else {
      forall i | 0 <= i < |headers|
        ensures OnePerName(fold, headers) ==> LastWritten(fold, headers, fold(headers[i].0), headers[i])
        ensures exists k :: 0 <= k < |headers| && fold(headers[k].0) == fold(headers[i].0)
      {
      }
    }
  }

  /** With nothing listed, both spellings of a header stay. */
  lemma EmptyOrderKeepsCaseVariants()
    ensures !OnePerName(Lower, OrderHeaders(Lower, [("A", "1"), ("a", "2")], []))
  {
    var r := [("A", "1"), ("a", "2")];
    assert Lower(r[0].0) == Lower(r[1].0) == "a";
  }

  /** When no name has two spellings, the folded map holds the headers as they are. */
  lemma CaseMapOfOnePerName(fold: Fold, headers: Object<string>)
    requires OnePerName(fold, headers)
    ensures Entries(CaseMap(fold, headers)) == headers
  {
    var m := MapSeq((h: (string, string)) => (fold(h.0), h), headers);
    assert Entries(m) == headers;
    CaseMapOfKeyed(fold, m);
  }

  /** Reordering twice is reordering once. */
  lemma {:induction false} OrderHeadersTwice(fold: Fold, headers: Object<string>, order: seq<string>)
    ensures OrderHeaders(fold, OrderHeaders(fold, headers, order), order) == OrderHeaders(fold, headers, order)
  {
    if order != [] {
      var m, names := CaseMap(fold, headers), MapSeq(fold, order);
      CaseMapIsKeyed(fold, headers);
      OrderedMapIsKeyed(fold, m, names);
      CaseMapOfKeyed(fold, OrderFields(m, names));
      OrderTwice(m, names);
    }
  }

  /** Names in the order of their first header. */
  function FirstSeen(fold: Fold, headers: Object<string>): seq<string> {
    if headers == [] then []
    else
      var earlier, name := FirstSeen(fold, headers[..|headers| - 1]), fold(headers[|headers| - 1].0);
      if name in earlier then earlier else earlier + [name]
  }

  lemma {:induction false} CaseMapInFirstSeenOrder(fold: Fold, headers: Object<string>)
    ensures KeysOf(CaseMap(fold, headers)) == FirstSeen(fold, headers)
  {
    if headers != [] {
      var p, last := headers[..|headers| - 1], headers[|headers| - 1];
      CaseMapInFirstSeenOrder(fold, p);
      var m := CaseMap(fold, p);
      GetIsIndex(m, fold(last.0));
      if Get(m, fold(last.0)).Some? {
        SetPresentKeepsKeys(m, fold(last.0), last);
        var i :| 0 <= i < |m| && m[i].0 == fold(last.0);
        assert KeysOf(m)[i] == fold(last.0);
      } else {
        SetAbsentAppends(m, fold(last.0), last);
      }
    }
  }

  lemma {:induction false} KeysWithout<V>(o: Object<V>, gone: Test)
    ensures KeysOf(Without(o, gone)) == Filtered(KeysOf(o), gone)
  {
    if o != [] {
      KeysWithout(o[1..], gone);
      assert KeysOf(o)[1..] == KeysOf(o[1..]);
      KeysOfCons(o[0], Without(o[1..], gone));
    }
  }

  function Filtered(names: seq<string>, gone: Test): seq<string> {
    if names == [] then []
    else if gone(names[0]) then Filtered(names[1..], gone)
    else [names[0]] + Filtered(names[1..], gone)
  }

  /** Every key is in the list, and they come in the order of their first place there. */
  ghost predicate InListOrder<V>(listed: Object<V>, names: seq<string>) {
    && (forall j :: 0 <= j < |listed| ==> FirstIndex(names, listed[j].0) < |names|)
    && (forall i, j :: 0 <= i < j < |listed| ==> FirstIndex(names, listed[i].0) < FirstIndex(names, listed[j].0))
  }

  lemma {:induction false} ListedAndRest(fold: Fold, headers: Object<string>, names: seq<string>)
    ensures var listed := Listed(CaseMap(fold, headers), names);
            var rest := Unlisted(CaseMap(fold, headers), names);
            && InListOrder(listed, names)
            && KeysOf(rest) == Filtered(FirstSeen(fold, headers), In(names))
  {
    var m := CaseMap(fold, headers);
    ListedInOrder(m, names);
    CaseMapInFirstSeenOrder(fold, headers);
    KeysWithout(m, In(names));
    var listed := Listed(m, names);
    forall j | 0 <= j < |listed|
      ensures FirstIndex(names, listed[j].0) < |names|
    {
      GetAt(listed, j);
      GetListed(m, names, listed[j].0);
    }
  }

  lemma {:induction false} KeyedIsOnePerName(fold: Fold, m: Object<(string, string)>)
    requires KeyedByFold(fold, m)
    ensures OnePerName(fold, Entries(m))
  {
    var r := Entries(m);
    forall i, j | 0 <= i < j < |r|
      ensures fold(r[i].0) != fold(r[j].0)
    {
      assert m[i].0 == fold(r[i].0) && m[j].0 == fold(r[j].0);
    }
  }

  lemma {:induction false} NothingListed(fold: Fold, headers: Object<string>)
    ensures var m := CaseMap(fold, headers);
            && Listed(m, []) + Unlisted(m, []) == m
            && (Entries(m) == headers <==> OnePerName(fold, headers))
  {
    var m := CaseMap(fold, headers);
    NothingGone(m, In([]));
    CaseMapIsKeyed(fold, headers);
    KeyedIsOnePerName(fold, m);
    if OnePerName(fold, headers) {
      CaseMapOfOnePerName(fold, headers);
    }
  }

  /** Listed names come first, in list order; the other names follow in first-seen order: exactly unless an empty order meets case variants. */
  lemma {:induction false} ListedThenFirstSeen(fold: Fold, headers: Object<string>, order: seq<string>)
    ensures var names := MapSeq(fold, order);
            var listed := Listed(CaseMap(fold, headers), names);
            var rest := Unlisted(CaseMap(fold, headers), names);
            && (OrderHeaders(fold, headers, order) == Entries(listed + rest) <==> order != [] || OnePerName(fold, headers))
            && InListOrder(listed, names)
            && KeysOf(rest) == Filtered(FirstSeen(fold, headers), In(names))
  {
    var names := MapSeq(fold, order);
    ListedAndRest(fold, headers, names);
    var m := CaseMap(fold, headers);
    if order == [] {
      NothingListed(fold, headers);
      assert names == [];
      assert Entries(Listed(m, names) + Unlisted(m, names)) == Entries(m);
    } else {
      assert |names| == |order| > 0;
      assert OrderFields(m, names) == Listed(m, names) + Unlisted(m, names);
    }
  }

  lemma {:induction false} EntryAppends(fold: Fold, m: Object<(string, string)>, header: (string, string))
    requires KeyedByFold(fold, m)
    requires Get(m, fold(header.0)).None?
    ensures Set(Entries(m), header.0, header.1) == Entries(m + [(fold(header.0), header)])
  {
    GetIsIndex(m, fold(header.0));
    GetIsIndex(Entries(m), header.0);
    forall i | 0 <= i < |m|
      ensures Entries(m)[i].0 != header.0
    {
      assert m[i].0 == fold(m[i].1.0);
    }
    SetAbsentAppends(Entries(m), header.0, header.1);
  }

  lemma {:induction false} ListedOneMore<V>(o: Object<V>, order: seq<string>, key: string)
    ensures Listed(o, order + [key]) == if key !in order && Get(o, key).Some? then Listed(o, order) + [(key, Get(o, key).value)] else Listed(o, order)
    ensures Get(Unlisted(o, order), key) == if key in order then None else Get(o, key)
    ensures Get(Listed(o, order), key) == if key in order then Get(o, key) else None
  {
    assert (order + [key])[..|order|] == order;
    GetListed(o, order, key);
    GetAfterWithout(o, In(order), key);
    if Get(o, key).Some? {
      if key in order {
        SetSame(Listed(o, order), key, Get(o, key).value);
      } else {
        SetAbsentAppends(Listed(o, order), key, Get(o, key).value);
      }
    }
  }

  lemma {:induction false} ListedIsKeyed(fold: Fold, m: Object<(string, string)>, order: seq<string>)
    requires KeyedByFold(fold, m)
    ensures KeyedByFold(fold, Listed(m, order))
  {
    OrderedMapIsKeyed(fold, m, order);
    assert order != [] ==> Listed(m, order) == OrderFields(m, order)[..|Listed(m, order)|];
  }

  /** The loops of `orderHeaders`: fill the folded map, take the listed headers out of it, then what is left. */
  method OrderHeadersLoop(fold: Fold, headers: Object<string>, headerOrder: seq<string>) returns (result: Object<string>)
    ensures result == OrderHeaders(fold, headers, headerOrder)
  {
    if headerOrder == [] {
      return headers;
    }
    var headerMap: Object<(string, string)> := [];
    for i := 0 to |headers|
      invariant headerMap == CaseMap(fold, headers[..i])
    {
      assert headers[..i + 1][..i] == headers[..i];
      headerMap := Set(headerMap, fold(headers[i].0), headers[i]);
    }
    assert headers[..|headers|] == headers;
    CaseMapIsKeyed(fold, headers);
    result, headerMap := TakeListed(fold, headerMap, headerOrder);
    result := AppendRest(fold, CaseMap(fold, headers), MapSeq(fold, headerOrder), result, headerMap);
  }

  method TakeListed(fold: Fold, m: Object<(string, string)>, headerOrder: seq<string>)
    returns (result: Object<string>, headerMap: Object<(string, string)>)
    requires headerOrder != []
    requires KeyedByFold(fold, m)
    ensures result == Entries(Listed(m, MapSeq(fold, headerOrder)))
    ensures headerMap == Unlisted(m, MapSeq(fold, headerOrder))
  {
    ghost var names := MapSeq(fold, headerOrder);
    result, headerMap := [], m;
    NothingGone(m, In([]));
    SameTest(m, In([]), In(names[..0]));
    for i := 0 to |headerOrder|
      invariant result == Entries(Listed(m, names[..i]))
      invariant headerMap == Unlisted(m, names[..i])
    {
      var name := fold(headerOrder[i]);
      assert names[..i + 1] == names[..i] + [name];
      ListedOneMore(m, names[..i], name);
      UnlistedOneMore(m, names[..i], name);
      var entry := Get(headerMap, name);
      if entry.Some? {
        GetIsIndex(m, name);
        ListedIsKeyed(fold, m, names[..i]);
        EntryAppends(fold, Listed(m, names[..i]), entry.value);
        result := Set(result, entry.value.0, entry.value.1);
        headerMap := Without(headerMap, Is(name));
      } else {
        NothingToDelete(headerMap, name);
      }
    }
    assert names[..|headerOrder|] == names;
  }

  method AppendRest(fold: Fold, ghost m: Object<(string, string)>, ghost names: seq<string>,
                    listed: Object<string>, headerMap: Object<(string, string)>) returns (result: Object<string>)
    requires KeyedByFold(fold, m)
    requires names != [] && listed == Entries(Listed(m, names)) && headerMap == Unlisted(m, names)
    ensures result == Entries(OrderFields(m, names))
  {
    result := listed;
    ghost var whole, n := OrderFields(m, names), |listed|;
    OrderedMapIsKeyed(fold, m, names);
    for i := 0 to |headerMap|
      invariant result == Entries(whole[..n + i])
    {
      assert whole[n + i] == headerMap[i];
      AbsentBefore(whole, n + i);
      EntryAppends(fold, whole[..n + i], headerMap[i].1);
      assert whole[..n + i + 1] == whole[..n + i] + [whole[n + i]];
      result := Set(result, headerMap[i].1.0, headerMap[i].1.1);
    }
    assert whole[..n + |headerMap|] == whole;
  }

  // ----- internal body markers -----

  const INTERNAL_FIELDS := [
    "_claudeCodeRequiresLowercaseToolNames",
    "_nativeCodexPassthrough",
    "_nativeXaiResponsesPassthrough",
    "_nativeOpenAICompatibleResponsesPassthrough"
  ]

  const INTERNAL_PREFIX := "_omniroute"

  predicate IsInternal(key: string) {
    key in INTERNAL_FIELDS || INTERNAL_PREFIX <= key
  }

  const INTERNAL: Test := (key: string) => IsInternal(key)
  const HAS_INTERNAL_PREFIX: Test := (key: string) => INTERNAL_PREFIX <= key

  function StripInternal<V>(body: Object<V>): Object<V> {
    Without(body, INTERNAL)
  }

  class Body<V> {
    var fields: Object<V>

    constructor (fields: Object<V>)
      ensures this.fields == fields
    {
      this.fields := fields;
    }

    method DeleteNamed(names: seq<string>)
      modifies this
      ensures fields == Unlisted(old(fields), names)
    {
      ghost var was := fields;
      NothingGone(was, In([]));
      SameTest(was, In([]), In(names[..0]));
      for i := 0 to |names|
        invariant fields == Unlisted(was, names[..i])
      {
        var field := names[i];
        UnlistedOneMore(was, names[..i], field);
        assert names[..i + 1] == names[..i] + [field];
        fields := Without(fields, Is(field));
      }
      assert names[..|names|] == names;
    }

    method DeletePrefixed(keys: seq<string>)
      modifies this
      ensures fields == Without(old(fields), InAndPrefixed(keys))
    {
      ghost var was := fields;
      NothingGone(was, InAndPrefixed([]));
      for i := 0 to |keys|
        invariant fields == Without(was, InAndPrefixed(keys[..i]))
      {
        var key := keys[i];
        InAndPrefixedOneMore(was, keys[..i], key);
        assert keys[..i + 1] == keys[..i] + [key];
        if INTERNAL_PREFIX <= key {
          fields := Without(fields, Is(key));
        }
      }
      assert keys[..|keys|] == keys;
    }

    /** Deletes the four named markers, then every key with the prefix, reading the key list once. */
    method StripInternalFields()
      modifies this
      ensures fields == StripInternal(old(fields))
    {
      ghost var was := fields;
      DeleteNamed(INTERNAL_FIELDS);
      DeletePrefixed(KeysOf(fields));
      StripInTwo(was);
    }
  }

  function InAndPrefixed(keys: seq<string>): Test {
    (key: string) => key in keys && INTERNAL_PREFIX <= key
  }

  lemma {:induction false} InAndPrefixedOneMore<V>(o: Object<V>, keys: seq<string>, key: string)
    ensures Without(o, InAndPrefixed(keys + [key]))
         == if INTERNAL_PREFIX <= key then Without(Without(o, InAndPrefixed(keys)), Is(key)) else Without(o, InAndPrefixed(keys))
  {
    if INTERNAL_PREFIX <= key {
      WithoutTwice(o, InAndPrefixed(keys), Is(key));
      SameTest(o, InAndPrefixed(keys + [key]), Either(InAndPrefixed(keys), Is(key)));
    } else {
      SameTest(o, InAndPrefixed(keys + [key]), InAndPrefixed(keys));
    }
  }

  lemma {:induction false} StripInTwo<V>(body: Object<V>)
    ensures var unnamed := Unlisted(body, INTERNAL_FIELDS);
            var keys := KeysOf(unnamed);
            Without(unnamed, InAndPrefixed(keys)) == StripInternal(body)
  {
    var unnamed := Unlisted(body, INTERNAL_FIELDS);
    var keys := KeysOf(unnamed);
    SameOnKeys(unnamed, InAndPrefixed(keys), HAS_INTERNAL_PREFIX);
    WithoutTwice(body, In(INTERNAL_FIELDS), HAS_INTERNAL_PREFIX);
    SameTest(body, INTERNAL,
             Either(In(INTERNAL_FIELDS), HAS_INTERNAL_PREFIX));
  }

  lemma {:induction false} SameOnKeys<V>(o: Object<V>, a: Test, b: Test)
    requires forall i :: 0 <= i < |o| ==> a(o[i].0) == b(o[i].0)
    ensures Without(o, a) == Without(o, b)
  {
    if o != [] {
      SameOnKeys(o[1..], a, b);
    }
  }

  /** The keys left come in the order they had. */
  lemma {:induction false} StripKeepsTheOrder<V>(body: Object<V>)
    ensures KeysOf(StripInternal(body)) == Filtered(KeysOf(body), INTERNAL)
  {
    KeysWithout(body, INTERNAL);
  }

  /** Exactly the internal keys go; every other key keeps its value. */
  lemma {:induction false} StripRemovesExactlyInternal<V>(body: Object<V>, key: string)
    ensures Get(StripInternal(body), key) == if IsInternal(key) then None else Get(body, key)
  {
    GetAfterWithout(body, INTERNAL, key);
  }

  lemma {:induction false} WithoutSet<V>(o: Object<V>, key: string, value: V, gone: Test)
    ensures Without(Set(o, key, value), gone) == if gone(key) then Without(o, gone) else Set(Without(o, gone), key, value)
  {
    if o != [] && o[0].0 != key {
      WithoutSet(o[1..], key, value, gone);
      assert Set(o, key, value)[1..] == Set(o[1..], key, value);
      var rest := Without(o[1..], gone);
      assert ([o[0]] + rest)[1..] == rest;
    } else if o != [] {
      assert Set(o, key, value)[1..] == o[1..];
      var rest := Without(o[1..], gone);
      assert ([o[0]] + rest)[1..] == rest;
    }
  }

  lemma {:induction false} WithoutListed<V>(o: Object<V>, order: seq<string>, gone: Test)
    ensures Without(Listed(o, order), gone) == Listed(Without(o, gone), order)
  {
    if order != [] {
      var p, last := order[..|order| - 1], order[|order| - 1];
      WithoutListed(o, p, gone);
      GetAfterWithout(o, gone, last);
      if Get(o, last).Some? {
        WithoutSet(Listed(o, p), last, Get(o, last).value, gone);
      }
    }
  }

  /** Stripping and ordering can be done in either order. */
  lemma {:induction false} StripCommutesWithOrder<V>(body: Object<V>, order: seq<string>)
    ensures StripInternal(OrderFields(body, order)) == OrderFields(StripInternal(body), order)
  {
    if order != [] {
      WithoutConcat(Listed(body, order), Unlisted(body, order), INTERNAL);
      WithoutListed(body, order, INTERNAL);
      WithoutTwice(body, In(order), INTERNAL);
    }
  }
}

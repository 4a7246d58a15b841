/**
 The JavaScript values the other modules work on: optional values, strings with
 `trim` and `toLowerCase`, insertion-ordered objects, and JSON trees.
 */
module Prelude {

  datatype Option<+T> = None | Some(value: T)

  // ----- strings -----

  /** White space and line terminators, as `trim` and `\s` see them. */
  predicate IsSpace(c: char) {
    || '\t' <= c <= '\r'
    || c == ' '
    || c == '\U{00A0}'
    || c == '\U{1680}'
    || '\U{2000}' <= c <= '\U{200A}'
    || c == '\U{2028}'
    || c == '\U{2029}'
    || c == '\U{202F}'
    || c == '\U{205F}'
    || c == '\U{3000}'
    || c == '\U{FEFF}'
  }

  predicate IsDigit(c: char) {
    '0' <= c <= '9'
  }

  predicate Trimmed(s: string) {
    s == [] || (!IsSpace(s[0]) && !IsSpace(s[|s| - 1]))
  }

  function TrimStart(s: string): (r: string)
    ensures r == [] || !IsSpace(r[0])
    ensures s == [] || !IsSpace(s[0]) ==> r == s
    ensures r == [] || r[|r| - 1] == s[|s| - 1]
    ensures |r| <= |s|
  {
    if s != [] && IsSpace(s[0]) then TrimStart(s[1..]) else s
  }

  function TrimEnd(s: string): (r: string)
    ensures r == [] || !IsSpace(r[|r| - 1])
    ensures s == [] || !IsSpace(s[|s| - 1]) ==> r == s
    ensures r <= s
  {
    if s != [] && IsSpace(s[|s| - 1]) then TrimEnd(s[..|s| - 1]) else s
  }

  function Trim(s: string): (r: string)
    ensures Trimmed(r)
    ensures Trimmed(s) ==> r == s
    ensures |r| <= |s|
  {
    TrimEnd(TrimStart(s))
  }

  lemma {:induction false} TrimStartKeepsChars(s: string)
    ensures forall c :: c in TrimStart(s) ==> c in s
  {
    if s != [] && IsSpace(s[0]) {
      TrimStartKeepsChars(s[1..]);
    }
  }

  lemma TrimKeepsChars(s: string)
    ensures forall c :: c in Trim(s) ==> c in s
  {
    TrimStartKeepsChars(s);
  }

  predicate AllSpaces(s: string) {
    forall i :: 0 <= i < |s| ==> IsSpace(s[i])
  }

  lemma {:induction false} TrimStartPadded(left: string, t: string)
    requires AllSpaces(left) && (t == "" || !IsSpace(t[0]))
    ensures TrimStart(left + t) == t
  {
    if left == "" {
      assert left + t == t;
    } else {
      TrimStartPadded(left[1..], t);
      assert (left + t)[1..] == left[1..] + t;
    }
  }

  lemma {:induction false} TrimEndPadded(t: string, right: string)
    requires AllSpaces(right) && (t == "" || !IsSpace(t[|t| - 1]))
    ensures TrimEnd(t + right) == t
  {
    if right == "" {
      assert t + right == t;
    } else {
      TrimEndPadded(t, right[..|right| - 1]);
      assert (t + right)[..|t + right| - 1] == t + right[..|right| - 1];
    }
  }

  /** Trimming takes exactly the spaces on both sides. */
  lemma TrimPadded(left: string, t: string, right: string)
    requires AllSpaces(left) && AllSpaces(right) && Trimmed(t)
    ensures Trim(left + (t + right)) == t
  {
    if t == "" {
      assert left + (t + right) == (left + right) + "";
      TrimStartPadded(left + right, "");
    } else {
      TrimStartPadded(left, t + right);
      TrimEndPadded(t, right);
    }
  }

  lemma {:induction false} TrimKeepsFirst(s: string)
    requires s != "" && !IsSpace(s[0])
    ensures TrimEnd(s) != ""
  {
    if |s| > 1 && IsSpace(s[|s| - 1]) {
      TrimKeepsFirst(s[..|s| - 1]);
    }
  }

  lemma {:induction false} BlankIsAllSpaces(s: string)
    ensures Trim(s) == "" <==> AllSpaces(s)
  {
    if s != "" && IsSpace(s[0]) {
      assert TrimStart(s) == TrimStart(s[1..]);
      BlankIsAllSpaces(s[1..]);
      assert forall i :: 0 < i < |s| ==> s[i] == s[1..][i - 1];
    } else if s != "" {
      TrimKeepsFirst(s);
    }
  }

  /** A string as used: trimmed, and absent when blank or not a string. */
  function NonEmpty(raw: Option<string>): (r: Option<string>)
    ensures r.Some? ==> r.value != "" && Trimmed(r.value)
  {
    if raw.Some? && Trim(raw.value) != "" then Some(Trim(raw.value)) else None
  }

  function LowerChar(c: char): char {
    if 'A' <= c <= 'Z' then ((c as int) + 32) as char else c
  }

  /** `toLowerCase` restricted to ASCII letters. */
  function Lower(s: string): (r: string)
    ensures |r| == |s|
    ensures forall i :: 0 <= i < |s| ==> r[i] == LowerChar(s[i])
  {
    seq(|s|, i requires 0 <= i < |s| => LowerChar(s[i]))
  }

  /** `toLowerCase` as a parameter, where its treatment of all of Unicode is left open. */
  type Fold = string -> string

  predicate EndsWith(s: string, t: string) {
    |t| <= |s| && s[|s| - |t|..] == t
  }

  predicate OccursAt(s: string, t: string, i: nat) {
    i + |t| <= |s| && s[i..i + |t|] == t
  }

  /** `s.includes(t)`. */
  predicate Contains(s: string, t: string) {
    exists i :: 0 <= i <= |s| && OccursAt(s, t, i)
  }

  /** `s` starts with the prefix and a slash. */
  predicate Prefixed(s: string, prefix: string) {
    prefix + "/" <= s
  }

  function AfterPrefix(s: string, prefix: string): string
    requires Prefixed(s, prefix)
  {
    s[|prefix| + 1..]
  }

  // ----- sequences -----

  lemma Associative<T>(a: seq<T>, b: seq<T>, c: seq<T>)
    ensures (a + b) + c == a + (b + c)
  {
  }

  lemma HeadOfConcat<T>(a: seq<T>, b: seq<T>)
    requires a != []
    ensures (a + b)[0] == a[0] && (a + b)[1..] == a[1..] + b
    ensures a == [a[0]] + a[1..]
  {
  }

  function MapSeq<A, B>(f: A -> B, s: seq<A>): (r: seq<B>)
    ensures |r| == |s|
    ensures forall i :: 0 <= i < |s| ==> r[i] == f(s[i])
  {
    seq(|s|, i requires 0 <= i < |s| => f(s[i]))
  }

  // ----- insertion-ordered objects -----

  type Object<+V> = seq<(string, V)>

  function Get<V>(o: Object<V>, key: string): Option<V> {
    if o == [] then None
    else if o[0].0 == key then Some(o[0].1)
    else Get(o[1..], key)
  }

  /** `o[key] = value`: in place when the key is there, appended otherwise. */
  function Set<V>(o: Object<V>, key: string, value: V): Object<V> {
    if o == [] then [(key, value)]
    else if o[0].0 == key then [(key, value)] + o[1..]
    else [o[0]] + Set(o[1..], key, value)
  }

  /** `delete o[key]` for every key a predicate names. */
  function Without<V>(o: Object<V>, gone: string -> bool): Object<V> {
    if o == [] then []
    else if gone(o[0].0) then Without(o[1..], gone)
    else [o[0]] + Without(o[1..], gone)
  }

  predicate HasKey<V>(o: Object<V>, key: string) {
    exists i :: 0 <= i < |o| && o[i].0 == key
  }

  predicate UniqueKeys<V>(o: Object<V>) {
    forall i, j :: 0 <= i < j < |o| ==> o[i].0 != o[j].0
  }

  lemma {:induction false} GetAfterSet<V>(o: Object<V>, key: string, value: V, other: string)
    ensures Get(Set(o, key, value), other) == if other == key then Some(value) else Get(o, other)
  {
    if o != [] && o[0].0 != key {
      GetAfterSet(o[1..], key, value, other);
      assert Set(o, key, value)[1..] == Set(o[1..], key, value);
    } else if o != [] {
      assert Set(o, key, value)[1..] == o[1..];
    }
  }

  /** Writing back the value a key already has changes nothing, not even the order. */
  lemma {:induction false} SetSame<V>(o: Object<V>, key: string, value: V)
    requires Get(o, key) == Some(value)
    ensures Set(o, key, value) == o
  {
    if o[0].0 != key {
      SetSame(o[1..], key, value);
    }
    assert o == [o[0]] + o[1..];
  }

  lemma {:induction false} SetAbsentAppends<V>(o: Object<V>, key: string, value: V)
    requires Get(o, key).None?
    ensures Set(o, key, value) == o + [(key, value)]
  {
    if o != [] {
      SetAbsentAppends(o[1..], key, value);
      assert o == [o[0]] + o[1..];
    }
  }

  lemma {:induction false} GetAfterWithout<V>(o: Object<V>, gone: string -> bool, key: string)
    ensures Get(Without(o, gone), key) == if gone(key) then None else Get(o, key)
  {
    if o != [] {
      GetAfterWithout(o[1..], gone, key);
      if !gone(o[0].0) {
        assert Without(o, gone)[1..] == Without(o[1..], gone);
      }
    }
  }

  lemma {:induction false} GetIsIndex<V>(o: Object<V>, key: string)
    ensures Get(o, key).None? <==> !HasKey(o, key)
    ensures Get(o, key).Some? ==> exists i :: 0 <= i < |o| && o[i] == (key, Get(o, key).value)
  {
    if o != [] {
      GetIsIndex(o[1..], key);
      if o[0].0 == key {
        assert o[0] == (key, Get(o, key).value);
      } else {
        assert HasKey(o[1..], key) ==> HasKey(o, key) by {
          if HasKey(o[1..], key) {
            var i :| 0 <= i < |o[1..]| && o[1..][i].0 == key;
            assert o[i + 1].0 == key;
          }
        }
        assert HasKey(o, key) ==> HasKey(o[1..], key) by {
          if HasKey(o, key) {
            var i :| 0 <= i < |o| && o[i].0 == key;
            assert o[1..][i - 1].0 == key;
          }
        }
        if Get(o, key).Some? {
          var i :| 0 <= i < |o[1..]| && o[1..][i] == (key, Get(o, key).value);
          assert o[i + 1] == (key, Get(o, key).value);
        }
      }
    }
  }

  function KeysOf<V>(o: Object<V>): (r: seq<string>)
    ensures |r| == |o|
    ensures forall i :: 0 <= i < |o| ==> r[i] == o[i].0
  {
    seq(|o|, i requires 0 <= i < |o| => o[i].0)
  }

  lemma {:induction false} SetPresentKeepsKeys<V>(o: Object<V>, key: string, value: V)
    requires Get(o, key).Some?
    ensures KeysOf(Set(o, key, value)) == KeysOf(o)
  {
    if o[0].0 != key {
      SetPresentKeepsKeys(o[1..], key, value);
      KeysOfCons(o[0], o[1..]);
      KeysOfCons(o[0], Set(o[1..], key, value));
      assert o == [o[0]] + o[1..];
    } else {
      KeysOfCons(o[0], o[1..]);
      KeysOfCons((key, value), o[1..]);
      assert o == [o[0]] + o[1..];
    }
  }

  lemma KeysOfCons<V>(first: (string, V), rest: Object<V>)
    ensures KeysOf([first] + rest) == [first.0] + KeysOf(rest)
  {
  }

  lemma {:induction false} GetOwnValue<V>(o: Object<V>, i: nat)
    requires i < |o| && UniqueKeys(o)
    ensures Get(o, o[i].0) == Some(o[i].1)
  {
    if i > 0 {
      GetOwnValue(o[1..], i - 1);
    }
  }

  /** The first `n` assignments of a list, made in order. */
  function SetFirst<V>(o: Object<V>, updates: Object<V>, n: nat): Object<V>
    requires n <= |updates|
  {
    if n == 0 then o else Set(SetFirst(o, updates, n - 1), updates[n - 1].0, updates[n - 1].1)
  }

  function SetAll<V>(o: Object<V>, updates: Object<V>): Object<V> {
    SetFirst(o, updates, |updates|)
  }

  lemma {:induction false} GetAfterSetFirst<V>(o: Object<V>, updates: Object<V>, n: nat, key: string)
    requires n <= |updates| && UniqueKeys(updates)
    ensures (forall i :: 0 <= i < n ==> updates[i].0 != key) ==> Get(SetFirst(o, updates, n), key) == Get(o, key)
    ensures forall i :: 0 <= i < n && updates[i].0 == key ==> Get(SetFirst(o, updates, n), key) == Some(updates[i].1)
  {
    if n > 0 {
      GetAfterSetFirst(o, updates, n - 1, key);
      GetAfterSet(SetFirst(o, updates, n - 1), updates[n - 1].0, updates[n - 1].1, key);
    }
  }

  lemma {:induction false} SetFirstSame<V>(o: Object<V>, updates: Object<V>, n: nat)
    requires n <= |updates|
    requires forall i :: 0 <= i < |updates| ==> Get(o, updates[i].0) == Some(updates[i].1)
    ensures SetFirst(o, updates, n) == o
  {
    if n > 0 {
      SetFirstSame(o, updates, n - 1);
      SetSame(o, updates[n - 1].0, updates[n - 1].1);
    }
  }

  /** Making the same assignments again changes nothing. */
  lemma SetAllTwice<V>(o: Object<V>, updates: Object<V>)
    requires UniqueKeys(updates)
    ensures SetAll(SetAll(o, updates), updates) == SetAll(o, updates)
  {
    forall i | 0 <= i < |updates|
      ensures Get(SetAll(o, updates), updates[i].0) == Some(updates[i].1)
    {
      GetAfterSetFirst(o, updates, |updates|, updates[i].0);
    }
    SetFirstSame(SetAll(o, updates), updates, |updates|);
  }

  lemma {:induction false} SetKeepsUniqueKeys<V>(o: Object<V>, key: string, value: V)
    requires UniqueKeys(o)
    ensures UniqueKeys(Set(o, key, value))
    ensures forall i :: 0 <= i < |Set(o, key, value)| ==> Set(o, key, value)[i] == (key, value) || Set(o, key, value)[i] in o
  {
    if o != [] && o[0].0 != key {
      SetKeepsUniqueKeys(o[1..], key, value);
      var rest := Set(o[1..], key, value);
      forall i | 0 <= i < |rest|
        ensures rest[i].0 != o[0].0
      {
        if rest[i] != (key, value) {
          assert rest[i] in o[1..];
        }
      }
    }
  }

  // ----- JSON -----

  datatype Json =
    | Null
    | Bool(b: bool)
    | Num(n: int)
    | Str(s: string)
    | Arr(items: seq<Json>)
    | Obj(fields: Object<Json>)

  /** A tree JavaScript can hold: no object in it lists a key twice. */
  predicate Proper(j: Json) {
    match j
    case Arr(items) => forall x :: x in items ==> Proper(x)
    case Obj(fields) => UniqueKeys(fields) && forall f :: f in fields ==> Proper(f.1)
    case _ => true
  }

  // ----- finite maps and sets -----

  function Lookup<V>(m: map<string, V>, key: string): Option<V> {
    if key in m then Some(m[key]) else None
  }

  lemma {:induction false} SubsetSize<T>(a: set<T>, b: set<T>)
    requires a <= b
    ensures |a| <= |b|
  {
    if a != {} {
      var x :| x in a;
      SubsetSize(a - {x}, b - {x});
    }
  }
}

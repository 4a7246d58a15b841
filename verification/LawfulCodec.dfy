/**
 A printer and parser of JSON trees that meets the laws asked of `JSON.stringify`
 and `JSON.parse`: every tree starts with a tag, and every list with a mark before
 each element and one at its end, so no text can be read in two ways.
 */
module LawfulCodec {
  import opened Prelude
  import opened CodexCarriers

  // Each printer is given the text that follows.

  function PrintNat(n: nat, rest: string): string {
    if n == 0 then ['.'] + rest else ['1'] + PrintNat(n - 1, rest)
  }

  function PrintChars(s: string, rest: string): string {
    if s == "" then ['.'] + rest else [','] + ([s[0]] + PrintChars(s[1..], rest))
  }

  function PrintItems(items: seq<Json>, rest: string): string {
    if items == [] then ['.'] + rest else [','] + Print(items[0], PrintItems(items[1..], rest))
  }

  function PrintField(field: (string, Json), rest: string): string {
    PrintChars(field.0, Print(field.1, rest))
  }

  function PrintFields(fields: Object<Json>, rest: string): string {
    if fields == [] then ['.'] + rest else [','] + PrintField(fields[0], PrintFields(fields[1..], rest))
  }

  function Tag(j: Json): char {
    match j
    case Null => 'n'
    case Bool(b) => if b then 't' else 'f'
    case Num(n) => if n >= 0 then '+' else '-'
    case Str(_) => 's'
    case Arr(_) => 'a'
    case Obj(_) => 'o'
  }

  function Untagged(j: Json, rest: string): string
    decreases j, 0
  {
    match j
    case Num(n) => PrintNat(if n >= 0 then n else -n, rest)
    case Str(s) => PrintChars(s, rest)
    case Arr(items) => PrintItems(items, rest)
    case Obj(fields) => PrintFields(fields, rest)
    case _ => rest
  }

  function Print(j: Json, rest: string): string
    decreases j, 1
  {
    [Tag(j)] + Untagged(j, rest)
  }

  lemma SplitFirst(c: char, a: string, d: char, b: string)
    ensures [c] + a == [d] + b <==> c == d && a == b
  {
    assert ([c] + a)[0] == c && ([d] + b)[0] == d;
    assert ([c] + a)[1..] == a && ([d] + b)[1..] == b;
  }

  lemma {:induction false} NatReadsOneWay(m: nat, n: nat, r: string, t: string)
    requires PrintNat(m, r) == PrintNat(n, t)
    ensures m == n && r == t
  {
    SplitFirst(if m == 0 then '.' else '1', if m == 0 then r else PrintNat(m - 1, r),
               if n == 0 then '.' else '1', if n == 0 then t else PrintNat(n - 1, t));
    if m > 0 {
      NatReadsOneWay(m - 1, n - 1, r, t);
    }
  }

  lemma {:induction false} CharsReadOneWay(a: string, b: string, r: string, t: string)
    requires PrintChars(a, r) == PrintChars(b, t)
    ensures a == b && r == t
  {
    SplitFirst(if a == "" then '.' else ',', if a == "" then r else [a[0]] + PrintChars(a[1..], r),
               if b == "" then '.' else ',', if b == "" then t else [b[0]] + PrintChars(b[1..], t));
    if a != "" {
      SplitFirst(a[0], PrintChars(a[1..], r), b[0], PrintChars(b[1..], t));
      CharsReadOneWay(a[1..], b[1..], r, t);
      assert a == [a[0]] + a[1..] && b == [b[0]] + b[1..];
    }
  }

  lemma {:induction false} ItemsReadOneWay(a: seq<Json>, b: seq<Json>, r: string, t: string)
    requires PrintItems(a, r) == PrintItems(b, t)
    ensures a == b && r == t
  {
    SplitFirst(if a == [] then '.' else ',', if a == [] then r else Print(a[0], PrintItems(a[1..], r)),
               if b == [] then '.' else ',', if b == [] then t else Print(b[0], PrintItems(b[1..], t)));
    if a != [] {
      ReadsOneWay(a[0], b[0], PrintItems(a[1..], r), PrintItems(b[1..], t));
      ItemsReadOneWay(a[1..], b[1..], r, t);
      assert a == [a[0]] + a[1..] && b == [b[0]] + b[1..];
    }
  }

  lemma {:induction false} FieldReadsOneWay(a: (string, Json), b: (string, Json), r: string, t: string)
    requires PrintField(a, r) == PrintField(b, t)
    ensures a == b && r == t
  {
    CharsReadOneWay(a.0, b.0, Print(a.1, r), Print(b.1, t));
    ReadsOneWay(a.1, b.1, r, t);
  }

  lemma {:induction false} FieldsReadOneWay(a: Object<Json>, b: Object<Json>, r: string, t: string)
    requires PrintFields(a, r) == PrintFields(b, t)
    ensures a == b && r == t
  {
    SplitFirst(if a == [] then '.' else ',', if a == [] then r else PrintField(a[0], PrintFields(a[1..], r)),
               if b == [] then '.' else ',', if b == [] then t else PrintField(b[0], PrintFields(b[1..], t)));
    if a != [] {
      FieldReadsOneWay(a[0], b[0], PrintFields(a[1..], r), PrintFields(b[1..], t));
      FieldsReadOneWay(a[1..], b[1..], r, t);
      assert a == [a[0]] + a[1..] && b == [b[0]] + b[1..];
    }
  }

  lemma {:induction false} ReadsOneWay(a: Json, b: Json, r: string, t: string)
    requires Print(a, r) == Print(b, t)
    ensures a == b && r == t
  {
    SplitFirst(Tag(a), Untagged(a, r), Tag(b), Untagged(b, t));
    match a
    case Num(n) => NatReadsOneWay(if n >= 0 then n else -n, if b.n >= 0 then b.n else -b.n, r, t);
    case Str(s) => CharsReadOneWay(s, b.s, r, t);
    case Arr(items) => ItemsReadOneWay(items, b.items, r, t);
    case Obj(fields) => FieldsReadOneWay(fields, b.fields, r, t);
    case _ =>
  }

  /** The one tree a text prints, if any. */
  ghost function Read(s: string): Option<Json> {
    if exists j :: Proper(j) && Print(j, "") == s then
      var j :| Proper(j) && Print(j, "") == s;
      Some(j)
    else None
  }

  /** So what is proved of every lawful codec is proved of something. */
  lemma LawfulCodecExists()
    ensures exists codec :: Lawful(codec)
  {
    var codec := Codec((s: string) => Read(s), (o: Object<Json>) => Print(Obj(o), ""));
    forall o: Object<Json> | Proper(Obj(o))
      ensures codec.parse(codec.stringify(o)) == Some(Obj(o)) && Trim(codec.stringify(o)) != ""
    {
      var s := Print(Obj(o), "");
      var j :| Proper(j) && Print(j, "") == s && Read(s) == Some(j);
      ReadsOneWay(j, Obj(o), "", "");
      assert s[0] == 'o';
      BlankIsAllSpaces(s);
    }
    assert Lawful(codec);
  }
}

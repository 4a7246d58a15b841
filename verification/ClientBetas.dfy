/**
 Merging the betas a client negotiated into the proxy's own `anthropic-beta`
 comma list. `Fold` stands for `toLowerCase`, whatever it does.
 */
module ClientBetas {
  import opened Prelude

  const CONTEXT_1M := "context-1m-2025-08-07"

  // ----- comma lists -----

  function Prepend(c: char, pieces: seq<string>): seq<string>
    requires |pieces| >= 1
  {
    if c == ',' then [""] + pieces else [[c] + pieces[0]] + pieces[1..]
  }

  /** `s.split(",")`. */
  function Split(s: string): (r: seq<string>)
    ensures |r| >= 1
  {
    if s == "" then [""] else Prepend(s[0], Split(s[1..]))
  }

  function Join(tokens: seq<string>): string {
    if tokens == [] then ""
    else if |tokens| == 1 then tokens[0]
    else tokens[0] + "," + Join(tokens[1..])
  }

  /** Trims the pieces and drops the empty ones. */
  function Clean(pieces: seq<string>): seq<string> {
    if pieces == [] then []
    else if Trim(pieces[0]) == "" then Clean(pieces[1..])
    else [Trim(pieces[0])] + Clean(pieces[1..])
  }

  function Tokens(s: string): seq<string> {
    Clean(Split(s))
  }

  predicate IsToken(t: string) {
    t != "" && Trimmed(t) && ',' !in t
  }

  lemma {:induction false} SplitHasNoCommas(s: string)
    ensures forall p :: p in Split(s) ==> ',' !in p
  {
    if s != "" {
      SplitHasNoCommas(s[1..]);
    }
  }

  lemma {:induction false} CleanGivesTokens(pieces: seq<string>)
    requires forall p :: p in pieces ==> ',' !in p
    ensures forall t :: t in Clean(pieces) ==> IsToken(t)
  {
    if pieces != [] {
      CleanGivesTokens(pieces[1..]);
      assert pieces[0] in pieces;
      TrimKeepsChars(pieces[0]);
    }
  }

  lemma TokensAreTokens(s: string)
    ensures forall t :: t in Tokens(s) ==> IsToken(t)
  {
    SplitHasNoCommas(s);
    CleanGivesTokens(Split(s));
  }

  lemma PrependConcat(c: char, l: seq<string>, r: seq<string>)
    requires |l| >= 1
    ensures Prepend(c, l + r) == Prepend(c, l) + r
  {
    assert (l + r)[1..] == l[1..] + r;
  }

  lemma {:induction false} SplitConcat(a: string, b: string)
    ensures Split(a + "," + b) == Split(a) + Split(b)
  {
    var whole := a + "," + b;
    if a == "" {
      assert whole[0] == ',' && whole[1..] == b;
    } else {
      SplitConcat(a[1..], b);
      assert whole[0] == a[0] && whole[1..] == a[1..] + "," + b;
      PrependConcat(a[0], Split(a[1..]), Split(b));
    }
  }

  lemma {:induction false} SplitPlain(t: string)
    requires ',' !in t
    ensures Split(t) == [t]
  {
    if t != "" {
      SplitPlain(t[1..]);
      assert t == [t[0]] + t[1..];
    }
  }

  lemma {:induction false} CleanConcat(a: seq<string>, b: seq<string>)
    ensures Clean(a + b) == Clean(a) + Clean(b)
  {
    if a == [] {
      assert a + b == b;
    } else {
      CleanConcat(a[1..], b);
      HeadOfConcat(a, b);
      Associative([Trim(a[0])], Clean(a[1..]), Clean(b));
    }
  }

  lemma TokensConcat(a: string, b: string)
    ensures Tokens(a + "," + b) == Tokens(a) + Tokens(b)
  {
    SplitConcat(a, b);
    CleanConcat(Split(a), Split(b));
  }

  /** Printing a token list and reading it back is the identity. */
  lemma {:induction false} TokensOfJoin(tokens: seq<string>)
    requires forall t :: t in tokens ==> IsToken(t)
    ensures Tokens(Join(tokens)) == tokens
  {
    if tokens != [] {
      var first := tokens[0];
      assert IsToken(first);
      SplitPlain(first);
      assert Clean([first]) == [first] + Clean([first][1..]);
      if |tokens| > 1 {
        TokensOfJoin(tokens[1..]);
        TokensConcat(first, Join(tokens[1..]));
      }
    }
  }

  // ----- merging token lists -----

  predicate Seen(fold: Fold, tokens: seq<string>, folded: string) {
    exists i :: 0 <= i < |tokens| && fold(tokens[i]) == folded
  }

  function MergeTokens(fold: Fold, allowed: string -> bool, base: seq<string>, client: seq<string>): seq<string> {
    if client == [] then base
    else
      var merged, token := MergeTokens(fold, allowed, base, client[..|client| - 1]), client[|client| - 1];
      if allowed(fold(token)) && !Seen(fold, merged, fold(token)) then merged + [token] else merged
  }

  /** The base comes first and untouched; then only allowed client tokens, none twice ignoring case; and no allowed one is missing. */
  lemma {:induction false} MergeIsExact(fold: Fold, allowed: string -> bool, base: seq<string>, client: seq<string>)
    ensures var merged := MergeTokens(fold, allowed, base, client);
            && base <= merged
            && (forall i :: |base| <= i < |merged| ==> merged[i] in client && allowed(fold(merged[i])))
            && (forall i, j :: 0 <= i < j < |merged| && |base| <= j ==> fold(merged[i]) != fold(merged[j]))
            && (forall t :: t in client && allowed(fold(t)) ==> Seen(fold, merged, fold(t)))
  {
    if client != [] {
      var earlier, token := client[..|client| - 1], client[|client| - 1];
      assert client == earlier + [token];
      MergeIsExact(fold, allowed, base, earlier);
      var before, merged := MergeTokens(fold, allowed, base, earlier), MergeTokens(fold, allowed, base, client);
      assert before <= merged;
      forall t | t in client && allowed(fold(t))
        ensures Seen(fold, merged, fold(t))
      {
        if Seen(fold, before, fold(t)) {
          var i :| 0 <= i < |before| && fold(before[i]) == fold(t);
          assert merged[i] == before[i];
        } else {
          assert t == token;
          assert merged[|before|] == token;
        }
      }
    }
  }

  lemma {:induction false} NothingNew(fold: Fold, allowed: string -> bool, base: seq<string>, client: seq<string>)
    requires forall t :: t in client && allowed(fold(t)) ==> Seen(fold, base, fold(t))
    ensures MergeTokens(fold, allowed, base, client) == base
  {
    if client != [] {
      NothingNew(fold, allowed, base, client[..|client| - 1]);
      assert client[|client| - 1] in client;
    }
  }

  lemma {:induction false} MergeInTwoSteps(fold: Fold, allowed: string -> bool, base: seq<string>, c1: seq<string>, c2: seq<string>)
    ensures MergeTokens(fold, allowed, MergeTokens(fold, allowed, base, c1), c2) == MergeTokens(fold, allowed, base, c1 + c2)
  {
    if c2 == [] {
      assert c1 + c2 == c1;
    } else {
      MergeInTwoSteps(fold, allowed, base, c1, c2[..|c2| - 1]);
      assert (c1 + c2)[..|c1 + c2| - 1] == c1 + c2[..|c2| - 1];
    }
  }

  // ----- merging header values -----

  /** The allow list, ignoring case; long context only for a model that takes it, or when none is named. */
  function Allowed(fold: Fold, supports: string -> bool, allow: seq<string>, model: Option<string>): string -> bool {
    (lower: string) =>
      && Seen(fold, allow, lower)
      && (lower != CONTEXT_1M || model.None? || model.value == "" || supports(model.value))
  }

  function Merged(fold: Fold, allowed: string -> bool, base: string, client: Option<string>): string {
    Join(MergeTokens(fold, allowed, Tokens(base), if client.Some? then Tokens(client.value) else []))
  }

  lemma {:induction false} BlankHasNoTokens(s: string)
    requires Trim(s) == ""
    ensures Tokens(s) == []
  {
    BlankIsAllSpaces(s);
    SplitPlain(s);
    assert Clean([s]) == Clean([s][1..]);
  }

  lemma SeenAfterAppend(fold: Fold, tokens: seq<string>, token: string)
    ensures forall folded :: Seen(fold, tokens + [token], folded) <==> Seen(fold, tokens, folded) || folded == fold(token)
  {
    forall folded
      ensures Seen(fold, tokens + [token], folded) <==> Seen(fold, tokens, folded) || folded == fold(token)
    {
      if Seen(fold, tokens, folded) {
        var i :| 0 <= i < |tokens| && fold(tokens[i]) == folded;
        assert (tokens + [token])[i] == tokens[i];
      }
      assert (tokens + [token])[|tokens|] == token;
    }
  }

  /** The loop over the client's tokens: `seen` tracks the list as it grows. */
  method AppendNew(fold: Fold, allowed: string -> bool, base: seq<string>, client: seq<string>) returns (baseList: seq<string>)
    ensures baseList == MergeTokens(fold, allowed, base, client)
  {
    baseList := base;
    var seen := set i | 0 <= i < |baseList| :: fold(baseList[i]);
    for i := 0 to |client|
      invariant baseList == MergeTokens(fold, allowed, base, client[..i])
      invariant forall folded :: folded in seen <==> Seen(fold, baseList, folded)
    {
      assert client[..i + 1][..i] == client[..i];
      var token := client[i];
      var lower := fold(token);
      if allowed(lower) && lower !in seen {
        SeenAfterAppend(fold, baseList, token);
        baseList := baseList + [token];
        seen := seen + {lower};
      }
    }
    assert client[..|client|] == client;
  }

  method MergeClientAnthropicBeta(fold: Fold, supports: string -> bool, base: string, clientBeta: Option<string>,
                                  allow: seq<string>, model: Option<string>) returns (r: string)
    ensures r == Merged(fold, Allowed(fold, supports, allow, model), base, clientBeta)
  {
    var baseList := Tokens(base);
    if clientBeta.None? {
      return Join(baseList);
    }
    if Trim(clientBeta.value) == "" {
      BlankHasNoTokens(clientBeta.value);
      return Join(baseList);
    }
    baseList := AppendNew(fold, Allowed(fold, supports, allow, model), baseList, Tokens(clientBeta.value));
    return Join(baseList);
  }

  lemma MergedReadsBack(fold: Fold, allowed: string -> bool, base: string, client: string)
    ensures Tokens(Merged(fold, allowed, base, Some(client))) == MergeTokens(fold, allowed, Tokens(base), Tokens(client))
  {
    TokensAreTokens(base);
    TokensAreTokens(client);
    MergedAreTokens(fold, allowed, Tokens(base), Tokens(client));
    TokensOfJoin(MergeTokens(fold, allowed, Tokens(base), Tokens(client)));
  }

  /** Merging the same client value again changes nothing. */
  lemma MergeTwice(fold: Fold, allowed: string -> bool, base: string, client: string)
    ensures Merged(fold, allowed, Merged(fold, allowed, base, Some(client)), Some(client)) == Merged(fold, allowed, base, Some(client))
  {
    MergedReadsBack(fold, allowed, base, client);
    MergeIsExact(fold, allowed, Tokens(base), Tokens(client));
    NothingNew(fold, allowed, MergeTokens(fold, allowed, Tokens(base), Tokens(client)), Tokens(client));
  }

  /** Merging one client value and then another is merging them joined by a comma. */
  lemma MergeOneByOne(fold: Fold, allowed: string -> bool, base: string, c1: string, c2: string)
    ensures Merged(fold, allowed, Merged(fold, allowed, base, Some(c1)), Some(c2)) == Merged(fold, allowed, base, Some(c1 + "," + c2))
  {
    MergedReadsBack(fold, allowed, base, c1);
    TokensConcat(c1, c2);
    MergeInTwoSteps(fold, allowed, Tokens(base), Tokens(c1), Tokens(c2));
  }

  /** For a named model that does not take it, long context is in the result only if the base had it. */
  lemma LongContextOnlyFromBase(fold: Fold, supports: string -> bool, allow: seq<string>, model: string, base: string, client: string)
    requires model != "" && !supports(model)
    ensures var merged := Tokens(Merged(fold, Allowed(fold, supports, allow, Some(model)), base, Some(client)));
            Seen(fold, merged, CONTEXT_1M) <==> Seen(fold, Tokens(base), CONTEXT_1M)
  {
    var allowed := Allowed(fold, supports, allow, Some(model));
    MergedReadsBack(fold, allowed, base, client);
    MergeIsExact(fold, allowed, Tokens(base), Tokens(client));
    var merged := MergeTokens(fold, allowed, Tokens(base), Tokens(client));
    if Seen(fold, Tokens(base), CONTEXT_1M) {
      var i :| 0 <= i < |Tokens(base)| && fold(Tokens(base)[i]) == CONTEXT_1M;
      assert merged[i] == Tokens(base)[i];
    }
    if Seen(fold, merged, CONTEXT_1M) {
      var i :| 0 <= i < |merged| && fold(merged[i]) == CONTEXT_1M;
      assert i < |Tokens(base)| && merged[i] == Tokens(base)[i];
    }
  }

  // ----- the header values themselves -----

  /** White space around a token is trimmed away, and a piece of nothing else gives no token: with `TokensConcat`, what every list reads as. */
  lemma TokensOfPiece(left: string, token: string, right: string)
    requires AllSpaces(left) && AllSpaces(right)
    ensures IsToken(token) ==> Tokens(left + (token + right)) == [token]
    ensures Tokens(left) == []
  {
    BlankIsAllSpaces(left);
    BlankHasNoTokens(left);
    if IsToken(token) {
      var piece := left + (token + right);
      assert ',' !in left && ',' !in right;
      SplitPlain(piece);
      TrimPadded(left, token, right);
      assert Clean([piece]) == [token] + Clean([piece][1..]);
    }
  }

  /** The printed list separates its tokens by a comma and nothing else. */
  lemma {:induction false} SplitOfJoin(tokens: seq<string>)
    requires tokens != [] && forall t :: t in tokens ==> ',' !in t
    ensures Split(Join(tokens)) == tokens
  {
    assert tokens[0] in tokens;
    SplitPlain(tokens[0]);
    if |tokens| > 1 {
      SplitOfJoin(tokens[1..]);
      SplitConcat(tokens[0], Join(tokens[1..]));
    }
  }

  /** A client token goes through when the allow list has it, ignoring case, and it is not long context for a named model that does not take it. */
  ghost predicate Passes(fold: Fold, supports: string -> bool, allow: seq<string>, model: Option<string>, token: string) {
    && (exists a :: a in allow && fold(a) == fold(token))
    && (fold(token) == "context-1m-2025-08-07" && model.Some? && model.value != "" ==> supports(model.value))
  }

  ghost predicate Among(fold: Fold, tokens: seq<string>, token: string) {
    exists t :: t in tokens && fold(t) == fold(token)
  }

  /** Place `k` of the client's list is the first with that token, ignoring case. */
  ghost predicate FirstPlace(fold: Fold, client: seq<string>, k: nat) {
    k < |client| && forall j :: 0 <= j < k ==> fold(client[j]) != fold(client[k])
  }

  lemma PassesIsAllowed(fold: Fold, supports: string -> bool, allow: seq<string>, model: Option<string>, token: string)
    ensures Passes(fold, supports, allow, model, token) <==> Allowed(fold, supports, allow, model)(fold(token))
  {
    if Seen(fold, allow, fold(token)) {
      var i :| 0 <= i < |allow| && fold(allow[i]) == fold(token);
      assert allow[i] in allow;
    }
    if a :| a in allow && fold(a) == fold(token) {
      var i :| 0 <= i < |allow| && allow[i] == a;
      assert fold(allow[i]) == fold(token);
    }
  }

  lemma AmongIsSeen(fold: Fold, tokens: seq<string>, token: string)
    ensures Among(fold, tokens, token) <==> Seen(fold, tokens, fold(token))
  {
    if Seen(fold, tokens, fold(token)) {
      var i :| 0 <= i < |tokens| && fold(tokens[i]) == fold(token);
      assert tokens[i] in tokens;
    }
    if t :| t in tokens && fold(t) == fold(token) {
      var i :| 0 <= i < |tokens| && tokens[i] == t;
      assert fold(tokens[i]) == fold(token);
    }
  }

  /** Client tokens that pass and are new, in the order and spelling of their first place. */
  ghost function New(fold: Fold, supports: string -> bool, allow: seq<string>, model: Option<string>, base: seq<string>, client: seq<string>): seq<string> {
    if client == [] then []
    else
      var k := |client| - 1;
      New(fold, supports, allow, model, base, client[..k])
      + if Passes(fold, supports, allow, model, client[k]) && !Among(fold, base, client[k]) && FirstPlace(fold, client, k) then [client[k]] else []
  }

  lemma {:induction false} MergeAppendsTheNew(fold: Fold, supports: string -> bool, allow: seq<string>, model: Option<string>, base: seq<string>, client: seq<string>)
    ensures MergeTokens(fold, Allowed(fold, supports, allow, model), base, client)
         == base + New(fold, supports, allow, model, base, client)
  {
    if client != [] {
      var k := |client| - 1;
      var p, token := client[..k], client[k];
      var allowed := Allowed(fold, supports, allow, model);
      MergeAppendsTheNew(fold, supports, allow, model, base, p);
      PassesIsAllowed(fold, supports, allow, model, token);
      if allowed(fold(token)) {
        SeenInMerge(fold, allowed, base, p, fold(token));
        AmongIsSeen(fold, base, token);
        assert FirstPlace(fold, client, k) <==> !Seen(fold, p, fold(token));
      }
    }
  }

  /** An allowed token is in the merged list exactly when the base or the client had it. */
  lemma {:induction false} SeenInMerge(fold: Fold, allowed: string -> bool, base: seq<string>, client: seq<string>, folded: string)
    requires allowed(folded)
    ensures Seen(fold, MergeTokens(fold, allowed, base, client), folded) <==> Seen(fold, base, folded) || Seen(fold, client, folded)
  {
    if client != [] {
      var p, token := client[..|client| - 1], client[|client| - 1];
      SeenInMerge(fold, allowed, base, p, folded);
      SeenAfterAppend(fold, MergeTokens(fold, allowed, base, p), token);
      SeenAfterAppend(fold, p, token);
      assert client == p + [token];
    }
  }

  lemma {:induction false} JoinOfMany(tokens: seq<string>)
    ensures tokens == [] ==> Join(tokens) == ""
    ensures tokens != [] && (forall t :: t in tokens ==> ',' !in t) ==> Split(Join(tokens)) == tokens
  {
    if tokens != [] && forall t :: t in tokens ==> ',' !in t {
      SplitOfJoin(tokens);
    }
  }

  lemma MergedAreTokens(fold: Fold, allowed: string -> bool, base: seq<string>, client: seq<string>)
    requires forall t :: t in base || t in client ==> IsToken(t)
    ensures forall t :: t in MergeTokens(fold, allowed, base, client) ==> IsToken(t)
  {
    MergeIsExact(fold, allowed, base, client);
    var merged := MergeTokens(fold, allowed, base, client);
    forall t | t in merged
      ensures IsToken(t)
    {
      var i :| 0 <= i < |merged| && merged[i] == t;
      assert i < |base| ==> t == base[i];
    }
  }

  /** What is sent: the base's tokens, then the client's that pass and are new, each as first written, one comma between them. Without a client value, the base's tokens alone. */
  lemma MergedBetas(fold: Fold, supports: string -> bool, allow: seq<string>, model: Option<string>, base: string, client: Option<string>)
    ensures var tokens := Tokens(base) + if client.None? then [] else New(fold, supports, allow, model, Tokens(base), Tokens(client.value));
            var sent := Merged(fold, Allowed(fold, supports, allow, model), base, client);
            if tokens == [] then sent == "" else Split(sent) == tokens
  {
    var given := if client.None? then [] else Tokens(client.value);
    TokensAreTokens(base);
    if client.Some? {
      TokensAreTokens(client.value);
    }
    MergeAppendsTheNew(fold, supports, allow, model, Tokens(base), given);
    MergedAreTokens(fold, Allowed(fold, supports, allow, model), Tokens(base), given);
    JoinOfMany(MergeTokens(fold, Allowed(fold, supports, allow, model), Tokens(base), given));
  }
}

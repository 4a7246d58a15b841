/**
 Provider error rules: an operator's replaceable table is consulted before the
 built-in catalog. `Fold` stands for `toLowerCase`, `stringify` for
 `JSON.stringify`, and the catalog is any ordered list of partial functions.
 */
module ErrorRules {
  import opened Prelude

  datatype Scope = ModelScope | ProviderScope | ConnectionScope

  datatype Match = Match(reason: string, scope: Scope, cooldownMs: Option<int>)

  datatype OperatorRule = OperatorRule(status: int, pattern: string, scope: Scope, reason: Option<string>, cooldownMs: Option<int>) {
    function Verdict(): Match {
      Match(if reason.Some? then reason.value else "quota_exhausted", scope, cooldownMs)
    }
  }

  type Table = map<string, seq<OperatorRule>>

  type CatalogRule = (int, Object<string>, Option<Json>) -> Option<Match>

  // ----- installing operator rules -----

  /** Settings as given: `None` for a provider whose value is not an array. */
  type Settings = Object<Option<seq<OperatorRule>>>

  predicate Installs(entry: (string, Option<seq<OperatorRule>>)) {
    entry.1.Some? && entry.1.value != []
  }

  function TableOf(fold: Fold, settings: Settings): Table {
    if settings == [] then map[]
    else
      var table, entry := TableOf(fold, settings[..|settings| - 1]), settings[|settings| - 1];
      if Installs(entry) then table[fold(entry.0) := entry.1.value] else table
  }

  /** Entry `i` is the last to install rules under that key. */
  ghost predicate LastInstall(fold: Fold, settings: Settings, key: string, i: nat) {
    && i < |settings| && Installs(settings[i]) && fold(settings[i].0) == key
    && forall j :: i < j < |settings| && Installs(settings[j]) ==> fold(settings[j].0) != key
  }

  /** A provider is live exactly when some non-empty list is given under its name ignoring case; the last such list counts. */
  lemma {:induction false} TableKeepsTheLast(fold: Fold, settings: Settings, key: string)
    ensures key in TableOf(fold, settings) <==> exists i :: 0 <= i < |settings| && Installs(settings[i]) && fold(settings[i].0) == key
    ensures key in TableOf(fold, settings) ==> exists i: nat :: LastInstall(fold, settings, key, i) && TableOf(fold, settings)[key] == settings[i].1.value
  {
    if settings != [] {
      var p, last := settings[..|settings| - 1], settings[|settings| - 1];
      TableKeepsTheLast(fold, p, key);
      assert settings == p + [last];
      if Installs(last) && fold(last.0) == key {
        assert LastInstall(fold, settings, key, |p|);
      } else if key in TableOf(fold, p) {
        var i: nat :| LastInstall(fold, p, key, i) && TableOf(fold, p)[key] == p[i].1.value;
        assert LastInstall(fold, settings, key, i);
      }
    }
  }

  // ----- matching -----

  const FULL_TEXT_PROVIDERS := {"agentrouter"}
  const SCOPE_PROVIDERS := {"agentrouter", "opencode", "opencode-zen", "opencode-go", "opencode-cli"}

  function KeyOf(fold: Fold, provider: Option<string>): Option<string> {
    if provider.None? || provider.value == "" then None else Some(fold(provider.value))
  }

  predicate HasOperatorRule(fold: Fold, table: Table, provider: Option<string>) {
    var key := KeyOf(fold, provider);
    key.Some? && key.value in table && table[key.value] != []
  }

  /** The source folds twice; `toLowerCase` of lower case is the identity. */
  predicate HonorsRuleLockScope(fold: Fold, table: Table, provider: Option<string>) {
    var key := KeyOf(fold, provider);
    key.Some? && (key.value in SCOPE_PROVIDERS || HasOperatorRule(fold, table, key))
  }

  /** The full error text for full-text providers and for providers with operator rules; the structured error otherwise. */
  function ResolveRuleMatchBody(fold: Fold, table: Table, provider: Option<string>, structured: Option<Json>, errorText: Option<string>): Option<Json> {
    var key := KeyOf(fold, provider);
    if key.Some? && (key.value in FULL_TEXT_PROVIDERS || HasOperatorRule(fold, table, provider)) && errorText.Some? && errorText.value != ""
    then Some(Str(errorText.value))
    else structured
  }

  predicate Applies(fold: Fold, rule: OperatorRule, status: int, lowered: string) {
    rule.status == status && Contains(lowered, fold(rule.pattern))
  }

  function MatchText(stringify: Json -> string, body: Option<Json>): string {
    if body.Some? && body.value.Str? then body.value.s
    else stringify(if body.None? || body.value.Null? then Str("") else body.value)
  }

  function FirstOperator(fold: Fold, rules: seq<OperatorRule>, status: int, lowered: string): Option<Match> {
    if rules == [] then None
    else if Applies(fold, rules[0], status, lowered) then Some(rules[0].Verdict())
    else FirstOperator(fold, rules[1..], status, lowered)
  }

  function FirstCatalog(rules: seq<CatalogRule>, status: int, headers: Object<string>, body: Option<Json>): Option<Match> {
    if rules == [] then None
    else if rules[0](status, headers, body).Some? then rules[0](status, headers, body)
    else FirstCatalog(rules[1..], status, headers, body)
  }

  function LowerKeys(fold: Fold, headers: Object<string>): Object<string> {
    if headers == [] then []
    else Set(LowerKeys(fold, headers[..|headers| - 1]), fold(headers[|headers| - 1].0), headers[|headers| - 1].1)
  }

  /** What surrounds the operator table: JSON printing and the built-in catalog. */
  datatype Env = Env(fold: Fold, stringify: Json -> string, catalog: map<string, seq<CatalogRule>>)

  function RuleMatch(env: Env, table: Table, provider: Option<string>, status: int, headers: Object<string>, body: Option<Json>): Option<Match> {
    var key := KeyOf(env.fold, provider);
    if key.None? then None
    else
      var rules := if key.value in table then table[key.value] else [];
      var operator := FirstOperator(env.fold, rules, status, env.fold(MatchText(env.stringify, body)));
      if operator.Some? then operator
      else if key.value !in env.catalog then None
      else FirstCatalog(env.catalog[key.value], status, LowerKeys(env.fold, headers), body)
  }

  // ----- the module's state and loops -----

  class OperatorRules {
    var rules: Table

    constructor ()
      ensures rules == map[]
    {
      rules := map[];
    }

    /** Replaces everything: nothing of an earlier call is left. `None` clears. */
    method SetOperatorProviderErrorRules(fold: Fold, settings: Option<Settings>)
      modifies this
      ensures rules == if settings.None? then map[] else TableOf(fold, settings.value)
    {
      rules := map[];
      if settings.None? {
        return;
      }
      var list := settings.value;
      for i := 0 to |list|
        invariant rules == TableOf(fold, list[..i])
      {
        assert list[..i + 1][..i] == list[..i];
        if Installs(list[i]) {
          rules := rules[fold(list[i].0) := list[i].1.value];
        }
      }
      assert list[..|list|] == list;
    }

    /** `injected` is the direct callers' table; without it the installed one is used. */
    method GetProviderErrorRuleMatch(env: Env, provider: Option<string>, status: int, headers: Object<string>, body: Option<Json>,
                                     injected: Option<Table>) returns (found: Option<Match>)
      ensures found == RuleMatch(env, if injected.Some? then injected.value else rules, provider, status, headers, body)
    {
      var key := KeyOf(env.fold, provider);
      if key.None? {
        return None;
      }
      var table := if injected.Some? then injected.value else rules;
      if key.value in table {
        found := ScanOperator(env, table[key.value], status, body);
        if found.Some? {
          return;
        }
      }
      if key.value !in env.catalog {
        return None;
      }
      found := ScanCatalog(env.catalog[key.value], status, LowerKeys(env.fold, headers), body);
    }
  }

  method ScanOperator(env: Env, rules: seq<OperatorRule>, status: int, body: Option<Json>) returns (found: Option<Match>)
    ensures found == FirstOperator(env.fold, rules, status, env.fold(MatchText(env.stringify, body)))
  {
    var lowered := env.fold(MatchText(env.stringify, body));
    for i := 0 to |rules|
      invariant FirstOperator(env.fold, rules, status, lowered) == FirstOperator(env.fold, rules[i..], status, lowered)
    {
      if Applies(env.fold, rules[i], status, lowered) {
        return Some(rules[i].Verdict());
      }
      assert rules[i..][1..] == rules[i + 1..];
    }
    return None;
  }

  method ScanCatalog(rules: seq<CatalogRule>, status: int, headers: Object<string>, body: Option<Json>) returns (found: Option<Match>)
    ensures found == FirstCatalog(rules, status, headers, body)
  {
    for i := 0 to |rules|
      invariant FirstCatalog(rules, status, headers, body) == FirstCatalog(rules[i..], status, headers, body)
    {
      found := rules[i](status, headers, body);
      if found.Some? {
        return;
      }
      assert rules[i..][1..] == rules[i + 1..];
    }
    return None;
  }

  // ----- an operator rule decides -----

  /** Rule `i` is the first in the list that applies. */
  ghost predicate Decides(fold: Fold, rules: seq<OperatorRule>, status: int, lowered: string, i: nat) {
    i < |rules| && Applies(fold, rules[i], status, lowered) && forall j :: 0 <= j < i ==> !Applies(fold, rules[j], status, lowered)
  }

  lemma {:induction false} FirstOperatorIsTheFirst(fold: Fold, rules: seq<OperatorRule>, status: int, lowered: string)
    ensures forall i: nat :: Decides(fold, rules, status, lowered, i) ==> FirstOperator(fold, rules, status, lowered) == Some(rules[i].Verdict())
    ensures FirstOperator(fold, rules, status, lowered).None? <==> forall i :: 0 <= i < |rules| ==> !Applies(fold, rules[i], status, lowered)
  {
    if rules != [] {
      FirstOperatorIsTheFirst(fold, rules[1..], status, lowered);
      assert forall i :: 0 < i < |rules| ==> rules[1..][i - 1] == rules[i];
      forall i: nat | Decides(fold, rules, status, lowered, i)
        ensures FirstOperator(fold, rules, status, lowered) == Some(rules[i].Verdict())
      {
        if i > 0 {
          assert !Applies(fold, rules[0], status, lowered);
          assert Decides(fold, rules[1..], status, lowered, i - 1);
        }
      }
    }
  }

  /** For a provider with live rules and a non-empty error text, the first rule whose status and text match decides, whatever the structured error, the headers and the catalog say. */
  lemma OperatorRuleDecides(env: Env, table: Table, provider: Option<string>, status: int, headers: Object<string>,
                            structured: Option<Json>, errorText: string, i: nat)
    requires HasOperatorRule(env.fold, table, provider) && errorText != ""
    requires Decides(env.fold, table[KeyOf(env.fold, provider).value], status, env.fold(errorText), i)
    ensures var body := ResolveRuleMatchBody(env.fold, table, provider, structured, Some(errorText));
            RuleMatch(env, table, provider, status, headers, body) == Some(table[KeyOf(env.fold, provider).value][i].Verdict())
  {
    FirstOperatorIsTheFirst(env.fold, table[KeyOf(env.fold, provider).value], status, env.fold(errorText));
  }

  /** When none of them matches, the catalog is asked, and it sees the full error text. */
  lemma CatalogDecidesOtherwise(env: Env, table: Table, provider: Option<string>, status: int, headers: Object<string>,
                                structured: Option<Json>, errorText: string)
    requires HasOperatorRule(env.fold, table, provider) && errorText != ""
    requires var rules := table[KeyOf(env.fold, provider).value];
             forall i :: 0 <= i < |rules| ==> !Applies(env.fold, rules[i], status, env.fold(errorText))
    ensures var key := KeyOf(env.fold, provider).value;
            var body := ResolveRuleMatchBody(env.fold, table, provider, structured, Some(errorText));
            RuleMatch(env, table, provider, status, headers, body)
            == if key in env.catalog then FirstCatalog(env.catalog[key], status, LowerKeys(env.fold, headers), Some(Str(errorText))) else None
  {
    FirstOperatorIsTheFirst(env.fold, table[KeyOf(env.fold, provider).value], status, env.fold(errorText));
  }

  /** A provider with live rules has its lock scope honoured, given that folding twice is folding once and keeps names non-empty. */
  lemma LiveRulesHonorScope(fold: Fold, table: Table, provider: Option<string>)
    requires provider.Some? ==> fold(fold(provider.value)) == fold(provider.value) != ""
    requires HasOperatorRule(fold, table, provider)
    ensures HonorsRuleLockScope(fold, table, provider)
  {
  }

  // ----- from the settings and the raw error to the answer -----

  /** The text a rule's pattern is looked for in: a string as it is, null and undefined as the empty string printed, anything else printed. */
  ghost predicate SearchedText(stringify: Json -> string, body: Option<Json>, text: string) {
    match body
    case None => text == stringify(Str(""))
    case Some(Null) => text == stringify(Str(""))
    case Some(Str(s)) => text == s
    case Some(other) => text == stringify(other)
  }

  /** Same status, and the text holds the pattern, ignoring case. */
  ghost predicate Hits(fold: Fold, rule: OperatorRule, status: int, text: string) {
    rule.status == status && exists before, after :: fold(text) == before + fold(rule.pattern) + after
  }

  ghost predicate FirstHit(fold: Fold, rules: seq<OperatorRule>, status: int, text: string, i: nat) {
    i < |rules| && Hits(fold, rules[i], status, text) && forall j :: 0 <= j < i ==> !Hits(fold, rules[j], status, text)
  }

  lemma ContainsIs(s: string, t: string)
    ensures Contains(s, t) <==> exists before, after :: s == before + t + after
  {
    if Contains(s, t) {
      var i :| 0 <= i <= |s| && OccursAt(s, t, i);
      assert s == s[..i] + t + s[i + |t|..];
    }
    forall before, after | s == before + t + after
      ensures Contains(s, t)
    {
      assert OccursAt(s, t, |before|);
    }
  }

  lemma HitsIsApplies(fold: Fold, rule: OperatorRule, status: int, text: string)
    ensures Hits(fold, rule, status, text) <==> Applies(fold, rule, status, fold(text))
  {
    ContainsIs(fold(text), fold(rule.pattern));
  }

  /** Every header stands under its folded name, with the value of the last one of that name; nothing else is there. */
  ghost predicate FoldedHeaders(fold: Fold, headers: Object<string>, h: Object<string>) {
    && UniqueKeys(h)
    && (forall key, value :: Get(h, key) == Some(value) <==> LastValue(fold, headers, key, value))
  }

  ghost predicate LastValue(fold: Fold, headers: Object<string>, key: string, value: string) {
    exists i :: 0 <= i < |headers| && fold(headers[i].0) == key && headers[i].1 == value
                && forall j :: i < j < |headers| ==> fold(headers[j].0) != key
  }

  lemma LastValueOneMore(fold: Fold, headers: Object<string>, last: (string, string), key: string, value: string)
    ensures LastValue(fold, headers + [last], key, value) <==>
            if fold(last.0) == key then last.1 == value else LastValue(fold, headers, key, value)
  {
    var all := headers + [last];
    assert all[|headers|] == last;
    assert forall i :: 0 <= i < |headers| ==> all[i] == headers[i];
  }

  lemma {:induction false} LowerKeysFold(fold: Fold, headers: Object<string>)
    ensures FoldedHeaders(fold, headers, LowerKeys(fold, headers))
  {
    if headers != [] {
      var p, last := headers[..|headers| - 1], headers[|headers| - 1];
      LowerKeysFold(fold, p);
      assert headers == p + [last];
      var before := LowerKeys(fold, p);
      SetKeepsUniqueKeys(before, fold(last.0), last.1);
      forall key, value
        ensures Get(LowerKeys(fold, headers), key) == Some(value) <==> LastValue(fold, headers, key, value)
      {
        GetAfterSet(before, fold(last.0), last.1, key);
        LastValueOneMore(fold, p, last, key, value);
      }
    }
  }

  ghost predicate FirstAnswer(rules: seq<CatalogRule>, status: int, h: Object<string>, body: Option<Json>, i: nat) {
    i < |rules| && rules[i](status, h, body).Some? && forall j :: 0 <= j < i ==> rules[j](status, h, body).None?
  }

  lemma {:induction false} FirstCatalogIsTheFirst(rules: seq<CatalogRule>, status: int, h: Object<string>, body: Option<Json>)
    ensures forall i: nat :: FirstAnswer(rules, status, h, body, i) ==> FirstCatalog(rules, status, h, body) == rules[i](status, h, body)
    ensures FirstCatalog(rules, status, h, body).None? <==> forall i :: 0 <= i < |rules| ==> rules[i](status, h, body).None?
  {
    if rules != [] {
      FirstCatalogIsTheFirst(rules[1..], status, h, body);
      assert forall i :: 0 < i < |rules| ==> rules[1..][i - 1] == rules[i];
      forall i: nat | FirstAnswer(rules, status, h, body, i)
        ensures FirstCatalog(rules, status, h, body) == rules[i](status, h, body)
      {
        if i > 0 {
          assert rules[0](status, h, body).None?;
          assert FirstAnswer(rules[1..], status, h, body, i - 1);
        }
      }
    }
  }

  /** The rules a provider has in the table, none for one it does not list. */
  function RulesFor(table: Table, key: string): seq<OperatorRule> {
    if key in table then table[key] else []
  }

  /** For every provider with a name and every body: the first operator rule that hits answers, whatever the catalog says. */
  lemma FirstHitAnswers(env: Env, table: Table, provider: string, status: int, headers: Object<string>, body: Option<Json>, text: string, i: nat)
    requires provider != "" && SearchedText(env.stringify, body, text)
    requires FirstHit(env.fold, RulesFor(table, env.fold(provider)), status, text, i)
    ensures var rule := RulesFor(table, env.fold(provider))[i];
            RuleMatch(env, table, Some(provider), status, headers, body)
            == Some(Match(if rule.reason.None? then "quota_exhausted" else rule.reason.value, rule.scope, rule.cooldownMs))
  {
    var rules := RulesFor(table, env.fold(provider));
    HitsIsApplies(env.fold, rules[i], status, text);
    forall j | 0 <= j < i
      ensures !Applies(env.fold, rules[j], status, env.fold(text))
    {
      HitsIsApplies(env.fold, rules[j], status, text);
    }
    FirstOperatorIsTheFirst(env.fold, rules, status, env.fold(text));
    assert Decides(env.fold, rules, status, env.fold(text), i);
  }

  /** Otherwise the first catalog rule with an answer does, seeing the body as it is and every header under its folded name; nothing when there is none, or no provider. */
  lemma CatalogAnswers(env: Env, table: Table, provider: string, status: int, headers: Object<string>, body: Option<Json>, text: string) returns (h: Object<string>)
    requires provider != "" && SearchedText(env.stringify, body, text)
    requires var rules := RulesFor(table, env.fold(provider));
             forall i :: 0 <= i < |rules| ==> !Hits(env.fold, rules[i], status, text)
    ensures FoldedHeaders(env.fold, headers, h)
    ensures var key, found := env.fold(provider), RuleMatch(env, table, Some(provider), status, headers, body);
            if key !in env.catalog then found.None?
            else
              && (forall i: nat :: FirstAnswer(env.catalog[key], status, h, body, i) ==> found == env.catalog[key][i](status, h, body))
              && ((forall i :: 0 <= i < |env.catalog[key]| ==> env.catalog[key][i](status, h, body).None?) ==> found.None?)
    ensures RuleMatch(env, table, None, status, headers, body).None? && RuleMatch(env, table, Some(""), status, headers, body).None?
  {
    h := LowerKeys(env.fold, headers);
    LowerKeysFold(env.fold, headers);
    var key := env.fold(provider);
    var rules := RulesFor(table, key);
    forall i | 0 <= i < |rules|
      ensures !Applies(env.fold, rules[i], status, env.fold(text))
    {
      HitsIsApplies(env.fold, rules[i], status, text);
    }
    FirstOperatorIsTheFirst(env.fold, rules, status, env.fold(text));
    if key in env.catalog {
      FirstCatalogIsTheFirst(env.catalog[key], status, h, body);
    }
  }

  /** A provider has live rules exactly when the settings give a non-empty list under its name, ignoring case. */
  lemma LiveWhenGiven(fold: Fold, settings: Settings, provider: Option<string>)
    ensures HasOperatorRule(fold, TableOf(fold, settings), provider) <==>
            && provider.Some? && provider.value != ""
            && exists i :: 0 <= i < |settings| && fold(settings[i].0) == fold(provider.value) && settings[i].1.Some? && settings[i].1.value != []
  {
    if provider.Some? {
      TableKeepsTheLast(fold, settings, fold(provider.value));
    }
  }

  /** Rules are shown the full error text for agentrouter and for providers with live rules, if there is one; the structured error otherwise. */
  lemma RuleBodyIs(fold: Fold, settings: Settings, provider: Option<string>, structured: Option<Json>, errorText: Option<string>)
    ensures var full := && provider.Some? && provider.value != "" && errorText.Some? && errorText.value != ""
                        && (fold(provider.value) == "agentrouter"
                            || exists i :: 0 <= i < |settings| && fold(settings[i].0) == fold(provider.value)
                                           && settings[i].1.Some? && settings[i].1.value != []);
            ResolveRuleMatchBody(fold, TableOf(fold, settings), provider, structured, errorText)
            == if full then Some(Str(errorText.value)) else structured
  {
    LiveWhenGiven(fold, settings, provider);
  }
}

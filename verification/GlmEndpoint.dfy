/**
 The GLM endpoint normaliser: split off query and hash, drop trailing slashes and
 one known endpoint suffix, and join another endpoint without doubling the
 version segment.
 */
module GlmEndpoint {
  import opened Prelude

  datatype Parts = Parts(base: string, suffix: string)

  predicate OpensSuffix(c: char) {
    c == '?' || c == '#'
  }

  predicate PlainBase(s: string) {
    forall i :: 0 <= i < |s| ==> !OpensSuffix(s[i])
  }

  function SplitUrlQueryAndHash(url: string): (r: Parts)
    ensures r.base + r.suffix == url
    ensures PlainBase(r.base)
    ensures r.suffix == "" || OpensSuffix(r.suffix[0])
  {
    if url == "" then Parts("", "")
    else if OpensSuffix(url[0]) then Parts("", url)
    else
      var r := SplitUrlQueryAndHash(url[1..]);
      Parts([url[0]] + r.base, r.suffix)
  }

  function StripSlashes(s: string): (r: string)
    ensures r <= s
    ensures r == "" || r[|r| - 1] != '/'
    ensures s != "" && s[|s| - 1] != '/' ==> r == s
  {
    if s != "" && s[|s| - 1] == '/' then StripSlashes(s[..|s| - 1]) else s
  }

  // ----- the patterns, all compared without case -----

  const MESSAGES := "/messages"
  const COUNT_TOKENS := MESSAGES + "/count_tokens"
  const CHAT := "/chat/completions"
  const MODELS := "/models"

  predicate EndsWithAnyCase(s: string, t: string) {
    |t| <= |s| && forall i :: 0 <= i < |t| ==> LowerChar(s[|s| - |t| + i]) == t[i]
  }

  function TrailingDigits(s: string): (n: nat)
    ensures n <= |s|
    ensures forall i :: |s| - n <= i < |s| ==> IsDigit(s[i])
    ensures n < |s| ==> !IsDigit(s[|s| - n - 1])
  {
    if s == "" || !IsDigit(s[|s| - 1]) then 0 else 1 + TrailingDigits(s[..|s| - 1])
  }

  /** Length of the version segment ending `s` (slash, v, digits), or 0. */
  function VersionLength(s: string): (n: nat)
    ensures n <= |s|
  {
    var d := TrailingDigits(s);
    if 0 < d && d + 2 <= |s| && s[|s| - d - 1] in "vV" && s[|s| - d - 2] == '/' then d + 2 else 0
  }

  function Cut(s: string, n: nat): (r: string)
    requires n <= |s|
    ensures r <= s
  {
    s[..|s| - n]
  }

  function CutVersion(s: string): (r: string)
    ensures r <= s
  {
    Cut(s, VersionLength(s))
  }

  /** A known endpoint at the end goes away; the two message endpoints take their version segment along. */
  function StripEndpoint(base: string): (r: string)
    ensures r <= base
  {
    if EndsWithAnyCase(base, COUNT_TOKENS) then CutVersion(Cut(base, |COUNT_TOKENS|))
    else if EndsWithAnyCase(base, MESSAGES) then CutVersion(Cut(base, |MESSAGES|))
    else if EndsWithAnyCase(base, CHAT) then Cut(base, |CHAT|)
    else if EndsWithAnyCase(base, MODELS) then Cut(base, |MODELS|)
    else base
  }

  function Stripped(url: string): Parts {
    var parts := SplitUrlQueryAndHash(url);
    Parts(StripEndpoint(StripSlashes(parts.base)), parts.suffix)
  }

  method StripKnownEndpointSuffix(url: string) returns (base: string, suffix: string)
    ensures Parts(base, suffix) == Stripped(url)
  {
    var parts := SplitUrlQueryAndHash(url);
    base, suffix := parts.base, parts.suffix;
    while base != "" && base[|base| - 1] == '/'
      invariant StripSlashes(base) == StripSlashes(parts.base)
      decreases |base|
    {
      base := base[..|base| - 1];
    }
    if EndsWithAnyCase(base, COUNT_TOKENS) {
      base := CutVersion(Cut(base, |COUNT_TOKENS|));
    } else if EndsWithAnyCase(base, MESSAGES) {
      base := CutVersion(Cut(base, |MESSAGES|));
    } else if EndsWithAnyCase(base, CHAT) {
      base := Cut(base, |CHAT|);
    } else if EndsWithAnyCase(base, MODELS) {
      base := Cut(base, |MODELS|);
    }
  }

  function VersionSegment(s: string): string {
    Lower(s[|s| - VersionLength(s)..])
  }

  predicate RepeatsVersion(base: string, path: string) {
    VersionLength(base) > 0 && VersionSegment(base) + "/" <= Lower(path)
  }

  function JoinPath(base: string, path: string): string {
    if RepeatsVersion(base, path) then base + path[VersionLength(base)..] else base + path
  }

  function WithSlash(path: string): (r: string)
    ensures r != "" && r[0] == '/'
    ensures path != "" && path[0] == '/' ==> r == path
  {
    if path != "" && path[0] == '/' then path else "/" + path
  }

  function Join(url: string, path: string): string {
    var s := Stripped(url);
    JoinPath(s.base, WithSlash(path)) + s.suffix
  }

  // ----- the endpoints callers join -----

  datatype Endpoint = Chat | Models | V1Models | V1Messages | V1CountTokens {
    function Path(): (path: string)
      ensures path != "" && path[0] == '/'
    {
      match this
      case Chat => "/chat/completions"
      case Models => "/models"
      case V1Models => "/v1/models"
      case V1Messages => "/v1/messages"
      case V1CountTokens => "/v1/messages/count_tokens"
    }

    predicate Versioned() {
      V1Models? || V1Messages? || V1CountTokens?
    }
  }

  predicate EndsInV1(s: string) {
    EndsWithAnyCase(s, "/v1")
  }

  lemma CharFromEnd(s: string, t: string, i: nat)
    requires EndsWithAnyCase(s, t) && i < |t|
    ensures LowerChar(s[|s| - |t| + i]) == t[i]
  {
  }

  lemma V1IsAVersion(s: string)
    ensures EndsInV1(s) <==> VersionLength(s) == 3 && Lower(s[|s| - 3..]) == "/v1"
  {
    if EndsInV1(s) {
      CharFromEnd(s, "/v1", 0);
      CharFromEnd(s, "/v1", 1);
      CharFromEnd(s, "/v1", 2);
      assert s[|s| - 3] == '/' && s[|s| - 2] in "vV" && s[|s| - 1] == '1';
      assert TrailingDigits(s[..|s| - 1]) == 0;
    }
  }

  lemma VersionOfAppended(s: string)
    ensures EndsInV1(s + "/v1") && VersionLength(s + "/v1") == 3
  {
    EndsWithAnyCaseAppended(s, "/v1");
    V1IsAVersion(s + "/v1");
  }

  lemma VersionSegmentShape(s: string)
    requires VersionLength(s) > 0
    ensures var m := VersionSegment(s);
            |m| == VersionLength(s) >= 3 && m[0] == '/' && m[1] == 'v' && forall i :: 2 <= i < |m| ==> IsDigit(m[i])
  {
  }

  predicate NoCapitals(s: string) {
    forall i :: 0 <= i < |s| ==> !('A' <= s[i] <= 'Z')
  }

  lemma LowerOfLower(s: string)
    requires NoCapitals(s)
    ensures Lower(s) == s
  {
  }

  lemma V1PathRepeatsV1(base: string, path: string)
    requires NoCapitals(path) && "/v1/" <= path
    ensures RepeatsVersion(base, path) <==> EndsInV1(base)
  {
    LowerOfLower(path);
    V1IsAVersion(base);
    if RepeatsVersion(base, path) {
      var m := VersionSegment(base);
      VersionSegmentShape(base);
      assert (m + "/")[3] == path[3] == '/';
      assert |m| == 3;
      assert m[2] == (m + "/")[2] == path[2] == '1';
    }
    assert "/v1" + "/" == "/v1/";
  }

  lemma PlainPathRepeatsNothing(base: string, path: string)
    requires NoCapitals(path) && |path| > 1 && path[1] != 'v'
    ensures !RepeatsVersion(base, path)
  {
    LowerOfLower(path);
    if VersionLength(base) > 0 {
      VersionSegmentShape(base);
      assert (VersionSegment(base) + "/")[1] == 'v';
    }
  }

  lemma PathHead(e: Endpoint)
    ensures NoCapitals(e.Path()) && |e.Path()| > 4
    ensures if e.Versioned() then "/v1/" <= e.Path() else e.Path()[1] != 'v'
  {
    match e
    case Chat =>
    case Models =>
    case V1Models =>
    case V1Messages =>
    case V1CountTokens =>
  }

  lemma RepeatsVersionIs(base: string, e: Endpoint)
    ensures RepeatsVersion(base, e.Path()) <==> EndsInV1(base) && e.Versioned()
  {
    PathHead(e);
    if e.Versioned() {
      V1PathRepeatsV1(base, e.Path());
    } else {
      PlainPathRepeatsNothing(base, e.Path());
    }
  }

  /** Joining appends the path, minus its `/v1` when the base already ends in one. */
  lemma JoinPathIs(base: string, e: Endpoint)
    ensures JoinPath(base, e.Path()) == base + if EndsInV1(base) && e.Versioned() then e.Path()[3..] else e.Path()
  {
    V1IsAVersion(base);
    RepeatsVersionIs(base, e);
  }

  // ----- what stripping makes of a joined URL -----

  lemma EndsWithAnyCaseAppended(s: string, t: string)
    requires NoCapitals(t)
    ensures EndsWithAnyCase(s + t, t) && Cut(s + t, |t|) == s
  {
  }

  /** The base a joined URL strips back to. */
  function Rest(base: string, e: Endpoint): string {
    match e
    case Chat => base
    case Models => base
    case V1Models => if EndsInV1(base) then base else base + "/v1"
    case _ => if EndsInV1(base) then Cut(base, 3) else base
  }

  lemma DifferentTails(s: string, t: string, k: nat)
    requires 0 < k <= |t| && k <= |s| && LowerChar(s[|s| - k]) != t[|t| - k]
    ensures !EndsWithAnyCase(s, t)
  {
    assert s[|s| - |t| + (|t| - k)] == s[|s| - k] || |t| > |s|;
  }

  lemma StripChat(b: string)
    ensures StripEndpoint(b + CHAT) == b
  {
    var s := b + CHAT;
    assert !EndsWithAnyCase(s, COUNT_TOKENS) by { DifferentTails(s, COUNT_TOKENS, 3); }
    assert !EndsWithAnyCase(s, MESSAGES) by { DifferentTails(s, MESSAGES, 2); }
    EndsWithAnyCaseAppended(b, CHAT);
  }

  lemma StripModels(b: string)
    ensures StripEndpoint(b + MODELS) == b
  {
    var s := b + MODELS;
    assert !EndsWithAnyCase(s, COUNT_TOKENS) by { DifferentTails(s, COUNT_TOKENS, 2); }
    assert !EndsWithAnyCase(s, MESSAGES) by { DifferentTails(s, MESSAGES, 2); }
    assert !EndsWithAnyCase(s, CHAT) by { DifferentTails(s, CHAT, 2); }
    EndsWithAnyCaseAppended(b, MODELS);
  }

  lemma StripMessages(b: string)
    ensures StripEndpoint(b + MESSAGES) == CutVersion(b)
  {
    var s := b + MESSAGES;
    assert !EndsWithAnyCase(s, COUNT_TOKENS) by { DifferentTails(s, COUNT_TOKENS, 2); }
    EndsWithAnyCaseAppended(b, MESSAGES);
  }

  lemma StripCountTokens(b: string)
    ensures StripEndpoint(b + COUNT_TOKENS) == CutVersion(b)
  {
    assert NoCapitals(COUNT_TOKENS) by {
      assert NoCapitals(MESSAGES) && NoCapitals("/count_tokens");
    }
    EndsWithAnyCaseAppended(b, COUNT_TOKENS);
  }

  /** What follows the version in a versioned endpoint. */
  function Tail(e: Endpoint): string
    requires e.Versioned()
  {
    match e
    case V1Models => MODELS
    case V1Messages => MESSAGES
    case V1CountTokens => COUNT_TOKENS
  }

  function VersionedRoot(base: string): string {
    if EndsInV1(base) then base else base + "/v1"
  }

  lemma PathIsVersionAndTail(e: Endpoint)
    requires e.Versioned()
    ensures e.Path() == "/v1" + Tail(e)
  {
  }

  lemma AfterVersion(tail: string)
    ensures ("/v1" + tail)[3..] == tail
  {
  }

  lemma JoinsAfterRoot(base: string, e: Endpoint)
    requires e.Versioned()
    ensures JoinPath(base, e.Path()) == VersionedRoot(base) + Tail(e)
  {
    JoinPathIs(base, e);
    PathIsVersionAndTail(e);
    AfterVersion(Tail(e));
    Associative(base, "/v1", Tail(e));
  }

  lemma StripOfJoinPath(base: string, e: Endpoint)
    ensures StripEndpoint(JoinPath(base, e.Path())) == Rest(base, e)
  {
    if e.Versioned() {
      var root := VersionedRoot(base);
      JoinsAfterRoot(base, e);
      V1IsAVersion(root);
      VersionOfAppended(base);
      StripModels(root);
      StripMessages(root);
      StripCountTokens(root);
    } else {
      JoinPathIs(base, e);
      StripChat(base);
      StripModels(base);
    }
  }

  lemma {:induction false} SplitOfParts(base: string, suffix: string)
    requires PlainBase(base)
    requires suffix == "" || OpensSuffix(suffix[0])
    ensures SplitUrlQueryAndHash(base + suffix) == Parts(base, suffix)
  {
    if base == "" {
      assert base + suffix == suffix;
    } else {
      SplitOfParts(base[1..], suffix);
      assert (base + suffix)[1..] == base[1..] + suffix;
      assert base == [base[0]] + base[1..];
    }
  }

  lemma StrippedParts(base: string, suffix: string)
    requires PlainBase(base) && base != "" && base[|base| - 1] != '/'
    requires suffix == "" || OpensSuffix(suffix[0])
    ensures Stripped(base + suffix) == Parts(StripEndpoint(base), suffix)
  {
    SplitOfParts(base, suffix);
  }

  lemma PathIsPlain(e: Endpoint)
    ensures PlainBase(e.Path()) && |e.Path()| > 3 && e.Path()[|e.Path()| - 1] == 's'
  {
  }

  lemma JoinedBaseIsPlain(base: string, e: Endpoint)
    requires PlainBase(base)
    ensures var j := JoinPath(base, e.Path());
            PlainBase(j) && j != "" && j[|j| - 1] != '/'
  {
    JoinPathIs(base, e);
    PathIsPlain(e);
    var path := e.Path();
    var added := if EndsInV1(base) && e.Versioned() then path[3..] else path;
    assert PlainBase(added) && added[|added| - 1] == 's';
  }

  /** Stripping a joined URL: the query and hash are untouched, and the base is `Rest`. */
  lemma StripOfJoin(url: string, e: Endpoint)
    ensures Stripped(Join(url, e.Path())) == Parts(Rest(Stripped(url).base, e), Stripped(url).suffix)
  {
    var base, suffix := Stripped(url).base, Stripped(url).suffix;
    assert base <= SplitUrlQueryAndHash(url).base;
    JoinedBaseIsPlain(base, e);
    StrippedParts(JoinPath(base, e.Path()), suffix);
    StripOfJoinPath(base, e);
  }

  // ----- idempotence, switching and doubling, each with its exact condition -----

  /** Judged on the stripped base alone: joining `f` after `e` is joining `f` directly. */
  predicate Switchable(base: string, e: Endpoint, f: Endpoint) {
    match e
    case Chat => true
    case Models => true
    case V1Models => EndsInV1(base) || f.Versioned()
    case _ => !EndsInV1(base) || (f.Versioned() && EndsWith(base, "/v1") && !EndsInV1(Cut(base, 3)))
  }

  lemma CancelRight(a: string, b: string, t: string)
    ensures a + t == b + t <==> a == b
  {
    assert (a + t)[..|a|] == a;
    assert (b + t)[..|b|] == b;
  }

  /** Two bases give the same URL exactly when they, or for a versioned endpoint their versioned roots, are the same. */
  lemma SameJoin(a: string, b: string, f: Endpoint)
    ensures JoinPath(a, f.Path()) == JoinPath(b, f.Path()) <==>
            if f.Versioned() then VersionedRoot(a) == VersionedRoot(b) else a == b
  {
    if f.Versioned() {
      JoinsAfterRoot(a, f);
      JoinsAfterRoot(b, f);
      CancelRight(VersionedRoot(a), VersionedRoot(b), Tail(f));
    } else {
      JoinPathIs(a, f);
      JoinPathIs(b, f);
      CancelRight(a, b, f.Path());
    }
  }

  lemma RootOfCut(base: string)
    requires EndsInV1(base)
    ensures Cut(base, 3) != base
    ensures VersionedRoot(Cut(base, 3)) == base <==> EndsWith(base, "/v1") && !EndsInV1(Cut(base, 3))
  {
    var c := Cut(base, 3);
    assert base == c + base[|base| - 3..];
    assert c + "/v1" == base <==> base[|base| - 3..] == "/v1" by {
      assert (c + "/v1")[|c|..] == "/v1";
    }
  }

  lemma RestSwitches(base: string, e: Endpoint, f: Endpoint)
    ensures JoinPath(Rest(base, e), f.Path()) == JoinPath(base, f.Path()) <==> Switchable(base, e, f)
  {
    SameJoin(Rest(base, e), base, f);
    VersionOfAppended(base);
    if EndsInV1(base) {
      RootOfCut(base);
    }
  }

  /** For every URL and every pair of endpoints. */
  lemma SwitchingEndpoints(url: string, e: Endpoint, f: Endpoint)
    ensures Join(Join(url, e.Path()), f.Path()) == Join(url, f.Path()) <==> Switchable(Stripped(url).base, e, f)
  {
    var s := Stripped(url);
    StripOfJoin(url, e);
    RestSwitches(s.base, e, f);
    CancelRight(JoinPath(Rest(s.base, e), f.Path()), JoinPath(s.base, f.Path()), s.suffix);
  }

  /** Query and hash come through a join untouched and stay at the end. */
  lemma JoinKeepsQueryAndHash(url: string, e: Endpoint)
    ensures SplitUrlQueryAndHash(Join(url, e.Path())).suffix == SplitUrlQueryAndHash(url).suffix
  {
    StripOfJoin(url, e);
  }

  /** Joining twice is joining once, except for a message endpoint on a base ending in an upper-case or doubled version 1. */
  lemma JoiningTwice(url: string, e: Endpoint)
    ensures var base := Stripped(url).base;
            Join(Join(url, e.Path()), e.Path()) == Join(url, e.Path()) <==>
            || !(e.V1Messages? || e.V1CountTokens?)
            || !EndsInV1(base)
            || (EndsWith(base, "/v1") && !EndsInV1(Cut(base, 3)))
  {
    SwitchingEndpoints(url, e, e);
  }

  lemma VersionStays(b: string)
    requires PlainBase(b)
    ensures Stripped(b + "/v1") == Parts(b + "/v1", "")
  {
    var s := b + "/v1";
    assert s[|s| - 1] == '1';
    DifferentTails(s, COUNT_TOKENS, 1);
    DifferentTails(s, MESSAGES, 1);
    DifferentTails(s, CHAT, 1);
    DifferentTails(s, MODELS, 1);
    StrippedParts(s, "");
    assert s + "" == s;
  }

  /** Every base ending in two version segments loses one when the joined message URL is joined again; `h/v1/v1` is one. */
  lemma DoubledVersionShrinks(c: string)
    requires PlainBase(c) && EndsInV1(c)
    ensures var once := Join(c + "/v1", V1Messages.Path());
            once == c + "/v1" + MESSAGES && Join(once, V1Messages.Path()) != once
  {
    var url := c + "/v1";
    VersionStays(c);
    VersionOfAppended(c);
    CutAppended(c);
    JoiningTwice(url, V1Messages);
    JoinsAfterRoot(url, V1Messages);
    assert url + MESSAGES + "" == url + MESSAGES;
  }

  lemma CutAppended(c: string)
    ensures Cut(c + "/v1", 3) == c
  {
  }

  // ----- stripping and joining any URL -----

  predicate OpensNothing(suffix: string) {
    suffix == "" || OpensSuffix(suffix[0])
  }

  predicate OnlySlashes(s: string) {
    forall i :: 0 <= i < |s| ==> s[i] == '/'
  }

  predicate OnlyDigits(s: string) {
    s != "" && forall i :: 0 <= i < |s| ==> IsDigit(s[i])
  }

  /** Ends, ignoring case, in one of the four endpoints that stripping knows. */
  predicate EndsInEndpoint(s: string) {
    || EndsWith(Lower(s), "/messages/count_tokens")
    || EndsWith(Lower(s), "/messages")
    || EndsWith(Lower(s), "/chat/completions")
    || EndsWith(Lower(s), "/models")
  }

  lemma EndsWithAnyCaseIs(s: string, t: string)
    ensures EndsWithAnyCase(s, t) <==> EndsWith(Lower(s), t)
  {
    var l := Lower(s);
    if |t| <= |s| {
      var tail := l[|s| - |t|..];
      assert forall i :: 0 <= i < |t| ==> tail[i] == LowerChar(s[|s| - |t| + i]);
    }
  }

  lemma {:induction false} SlashesStrip(b: string, slashes: string)
    requires OnlySlashes(slashes)
    ensures StripSlashes(b + slashes) == StripSlashes(b)
  {
    if slashes == "" {
      assert b + slashes == b;
    } else {
      SlashesStrip(b, slashes[..|slashes| - 1]);
      assert (b + slashes)[..|b + slashes| - 1] == b + slashes[..|slashes| - 1];
    }
  }

  /** Trailing slashes make no difference, however many. */
  lemma TrailingSlashesAreDropped(b: string, slashes: string, suffix: string, path: string)
    requires PlainBase(b) && OnlySlashes(slashes) && OpensNothing(suffix)
    ensures Stripped(b + slashes + suffix) == Stripped(b + suffix)
    ensures Join(b + slashes + suffix, path) == Join(b + suffix, path)
  {
    assert PlainBase(b + slashes);
    SplitOfParts(b + slashes, suffix);
    SplitOfParts(b, suffix);
    SlashesStrip(b, slashes);
  }

  lemma OtherBasesStrip(b: string)
    requires !EndsInEndpoint(b)
    ensures StripEndpoint(b) == b
  {
    EndsWithAnyCaseIs(b, COUNT_TOKENS);
    EndsWithAnyCaseIs(b, MESSAGES);
    EndsWithAnyCaseIs(b, CHAT);
    EndsWithAnyCaseIs(b, MODELS);
    assert COUNT_TOKENS == "/messages/count_tokens";
  }

  /** A base that ends in no known endpoint keeps everything, its version included: the path goes between it and the query. */
  lemma OtherBasesAreKept(b: string, suffix: string, path: string)
    requires PlainBase(b) && OpensNothing(suffix) && (b == "" || b[|b| - 1] != '/') && !EndsInEndpoint(b)
    ensures Stripped(b + suffix) == Parts(b, suffix)
    ensures Join(b + suffix, path) == JoinPath(b, WithSlash(path)) + suffix
  {
    SplitOfParts(b, suffix);
    OtherBasesStrip(b);
  }

  lemma {:induction false} TrailingDigitsAre(a: string, digits: string)
    requires OnlyDigits(digits) && (a == "" || !IsDigit(a[|a| - 1]))
    ensures TrailingDigits(a + digits) == |digits|
  {
    var s := a + digits;
    assert forall i :: 0 <= i < |digits| ==> s[|a| + i] == digits[i];
    assert a != "" ==> s[|a| - 1] == a[|a| - 1];
  }

  /** `s` ends in a version segment `"/v" + digits`, ignoring case. */
  ghost predicate EndsInVersion(s: string, b: string, v: char, digits: string) {
    s == b + ['/', v] + digits && v in "vV" && OnlyDigits(digits)
  }

  lemma VersionLengthIs(s: string, b: string, v: char, digits: string)
    requires EndsInVersion(s, b, v, digits)
    ensures VersionLength(s) == |digits| + 2 && CutVersion(s) == b
  {
    var a := b + ['/', v];
    TrailingDigitsAre(a, digits);
    assert s[|s| - |digits| - 1] == a[|a| - 1] == v;
    assert s[|s| - |digits| - 2] == a[|a| - 2] == '/';
    assert s[..|b|] == b;
  }

  lemma VersionIsThere(s: string)
    ensures var n := VersionLength(s);
            if n == 0 then CutVersion(s) == s else n >= 3 && EndsInVersion(s, s[..|s| - n], s[|s| - n + 1], s[|s| - n + 2..])
  {
    var n := VersionLength(s);
    if n > 0 {
      assert s == s[..|s| - n] + ['/', s[|s| - n + 1]] + s[|s| - n + 2..];
    }
  }

  predicate MessageEndpoint(word: string) {
    Lower(word) == "/messages" || Lower(word) == "/messages/count_tokens"
  }

  predicate OtherEndpoint(word: string) {
    Lower(word) == "/chat/completions" || Lower(word) == "/models"
  }

  lemma LowerAppended(s: string, word: string)
    ensures Lower(s + word) == Lower(s) + Lower(word)
  {
  }

  lemma SameLowerSameTail(s: string, word: string, t: string)
    requires Lower(word) == t
    ensures EndsWithAnyCase(s + word, t) && Cut(s + word, |t|) == s
  {
    LowerAppended(s, word);
    EndsWithAnyCaseIs(s + word, t);
  }

  lemma StripMessageWord(b: string, word: string)
    requires MessageEndpoint(word)
    ensures StripEndpoint(b + word) == CutVersion(b)
  {
    var s := b + word;
    LowerAppended(b, word);
    if Lower(word) == "/messages" {
      SameLowerSameTail(b, word, MESSAGES);
      assert LowerChar(s[|s| - 2]) == Lower(word)[|word| - 2] == 'e';
      assert !EndsWithAnyCase(s, COUNT_TOKENS) by { DifferentTails(s, COUNT_TOKENS, 2); }
    } else {
      SameLowerSameTail(b, word, COUNT_TOKENS);
    }
  }

  lemma StripOtherWord(b: string, word: string)
    requires OtherEndpoint(word)
    ensures StripEndpoint(b + word) == b
  {
    var s := b + word;
    if Lower(word) == "/chat/completions" {
      SameLowerSameTail(b, word, CHAT);
      assert LowerChar(s[|s| - 2]) == Lower(word)[|word| - 2] == 'n';
      assert LowerChar(s[|s| - 3]) == Lower(word)[|word| - 3] == 'o';
      assert !EndsWithAnyCase(s, COUNT_TOKENS) by { DifferentTails(s, COUNT_TOKENS, 3); }
      assert !EndsWithAnyCase(s, MESSAGES) by { DifferentTails(s, MESSAGES, 2); }
    } else {
      SameLowerSameTail(b, word, MODELS);
      assert LowerChar(s[|s| - 2]) == Lower(word)[|word| - 2] == 'l';
      assert !EndsWithAnyCase(s, COUNT_TOKENS) by { DifferentTails(s, COUNT_TOKENS, 2); }
      assert !EndsWithAnyCase(s, MESSAGES) by { DifferentTails(s, MESSAGES, 2); }
      assert !EndsWithAnyCase(s, CHAT) by { DifferentTails(s, CHAT, 2); }
    }
  }

  lemma LastCharOfWord(word: string)
    requires MessageEndpoint(word) || OtherEndpoint(word)
    ensures word != "" && word[|word| - 1] != '/' && PlainBase(word)
  {
    var l := Lower(word);
    assert l[|l| - 1] == 's';
    assert PlainBase(l) by {
      assert PlainBase("/messages") && PlainBase("/count_tokens") && PlainBase("/chat/completions") && PlainBase("/models");
      assert "/messages/count_tokens" == "/messages" + "/count_tokens";
    }
    forall i | 0 <= i < |word|
      ensures !OpensSuffix(word[i])
    {
      assert l[i] == LowerChar(word[i]);
    }
  }

  /** An endpoint written in any case goes away; a message endpoint takes one version segment along, the others leave it. */
  lemma EndpointsAreStripped(b: string, word: string, suffix: string)
    requires PlainBase(b) && OpensNothing(suffix)
    ensures OtherEndpoint(word) ==> Stripped(b + word + suffix) == Parts(b, suffix)
    ensures MessageEndpoint(word) ==>
              && (forall c, v, digits :: EndsInVersion(b, c, v, digits) ==> Stripped(b + word + suffix) == Parts(c, suffix))
              && ((forall c, v, digits :: !EndsInVersion(b, c, v, digits)) ==> Stripped(b + word + suffix) == Parts(b, suffix))
  {
    if MessageEndpoint(word) || OtherEndpoint(word) {
      LastCharOfWord(word);
      StrippedParts(b + word, suffix);
    }
    if OtherEndpoint(word) {
      StripOtherWord(b, word);
    }
    if MessageEndpoint(word) {
      StripMessageWord(b, word);
      forall c, v, digits | EndsInVersion(b, c, v, digits)
        ensures CutVersion(b) == c
      {
        VersionLengthIs(b, c, v, digits);
      }
      if forall c, v, digits :: !EndsInVersion(b, c, v, digits) {
        VersionIsThere(b);
      }
    }
  }

  /** Any path: it is appended, less its version segment when the base ends in that version, ignoring case. */
  lemma JoinPathOfAny(base: string, path: string, b: string, v: char, digits: string)
    ensures EndsInVersion(base, b, v, digits) ==>
              JoinPath(base, path) == base + if ("/v" + digits) + "/" <= Lower(path) then path[|digits| + 2..] else path
    ensures (forall c, u, d :: !EndsInVersion(base, c, u, d)) ==> JoinPath(base, path) == base + path
  {
    if EndsInVersion(base, b, v, digits) {
      VersionLengthIs(base, b, v, digits);
      var segment := base[|base| - VersionLength(base)..];
      assert segment == ['/', v] + digits;
      assert Lower(segment) == "/v" + digits;
    }
    if forall c, u, d :: !EndsInVersion(base, c, u, d) {
      VersionIsThere(base);
    }
  }

  // ----- no doubled version -----

  predicate V1At(s: string, i: nat) {
    i + 3 <= |s| && LowerChar(s[i]) == '/' && LowerChar(s[i + 1]) == 'v' && LowerChar(s[i + 2]) == '1'
  }

  /** Two version 1 segments in a row, in any case, at position `i`. */
  predicate DoubledAt(s: string, i: nat) {
    V1At(s, i) && V1At(s, i + 3)
  }

  lemma OneInPath(e: Endpoint, k: nat)
    requires k < |e.Path()| && LowerChar(e.Path()[k]) == '1'
    ensures e.Versioned() && k == 2
  {
  }

  lemma JoinedTail(base: string, e: Endpoint, k: nat)
    requires k < |JoinPath(base, e.Path())| && |base| <= k
    requires LowerChar(JoinPath(base, e.Path())[k]) == '1'
    ensures e.Versioned() && !EndsInV1(base) && k == |base| + 2
  {
    JoinPathIs(base, e);
    var skipped := if EndsInV1(base) && e.Versioned() then 3 else 0;
    assert JoinPath(base, e.Path())[k] == e.Path()[k - |base| + skipped];
    OneInPath(e, k - |base| + skipped);
  }

  lemma EndsInV1Is(s: string)
    ensures EndsInV1(s) <==> |s| >= 3 && V1At(s, |s| - 3)
  {
    if EndsInV1(s) {
      CharFromEnd(s, "/v1", 0);
      CharFromEnd(s, "/v1", 1);
      CharFromEnd(s, "/v1", 2);
    }
  }

  lemma NoDoubleAcrossTheSeam(base: string, e: Endpoint, i: nat)
    requires |base| < i + 6
    ensures !DoubledAt(JoinPath(base, e.Path()), i)
  {
    JoinPathIs(base, e);
    var j := JoinPath(base, e.Path());
    if V1At(j, i + 3) {
      JoinedTail(base, e, i + 5);
      assert j[i] == base[i] && j[i + 1] == base[i + 1] && j[i + 2] == base[i + 2];
      EndsInV1Is(base);
    }
  }

  /** Joining never creates a doubled version: the result has one exactly where the base had. */
  lemma JoinNeverDoublesTheVersion(base: string, e: Endpoint, i: nat)
    ensures DoubledAt(JoinPath(base, e.Path()), i) <==> DoubledAt(base, i)
  {
    JoinPathIs(base, e);
    assert base <= JoinPath(base, e.Path());
    if |base| < i + 6 {
      NoDoubleAcrossTheSeam(base, e, i);
    }
  }
}

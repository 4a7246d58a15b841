/**
 The per-connection fingerprint seed: how a save keeps, creates or drops it, and
 the session, thread and installation ids derived from it.
 */
module CodexSeed {
  import opened Prelude
  import opened StableUuid

  /** A connection's `providerSpecificData`; a missing one reads as the empty map. */
  type Data = map<string, Json>

  const SEED_KEY := "codexFingerprintSeed"
  const MODE_KEY := "codexFingerprintMode"

  datatype Mode = Off | Device | Session | Full

  function OrEmpty(data: Option<Data>): Data {
    if data.Some? then data.value else map[]
  }

  function ReadString(data: Data, key: string): Option<string> {
    if key in data && data[key].Str? then Some(data[key].s) else None
  }

  function FirstOf(a: Option<string>, b: Option<string>): Option<string> {
    if a.Some? then a else b
  }

  function GetSeed(data: Data): Option<string> {
    NormalizeUuid(ReadString(data, SEED_KEY))
  }

  predicate IsOAuth(accessToken: Option<string>, refreshToken: Option<string>) {
    NonEmpty(accessToken).Some? || NonEmpty(refreshToken).Some?
  }

  /** A token counts when it is a string with something besides white space. */
  lemma OAuthIs(accessToken: Option<string>, refreshToken: Option<string>)
    ensures IsOAuth(accessToken, refreshToken) <==>
            (accessToken.Some? && !AllSpaces(accessToken.value)) || (refreshToken.Some? && !AllSpaces(refreshToken.value))
  {
    if accessToken.Some? {
      BlankIsAllSpaces(accessToken.value);
    }
    if refreshToken.Some? {
      BlankIsAllSpaces(refreshToken.value);
    }
  }

  /** The configured mode; session unless one of the four names is given. */
  function GetMode(data: Data, isOAuth: bool): Mode {
    if !isOAuth then Off
    else
      var raw := FirstOf(NonEmpty(ReadString(data, MODE_KEY)), NonEmpty(ReadString(data, "codex_fingerprint_mode")));
      var name := if raw.Some? then Lower(raw.value) else "";
      if name == "off" then Off
      else if name == "device" then Device
      else if name == "full" then Full
      else Session
  }

  // ----- one save -----

  /** A create or update of a connection; `drawn` is what `randomUUID` returns if asked. */
  datatype Save = Save(inbound: Option<Data>, accessToken: Option<string>, refreshToken: Option<string>, drawn: string) {
    predicate OAuth() {
      IsOAuth(accessToken, refreshToken)
    }
  }

  function OrUndefined(data: Data): Option<Data> {
    if data == map[] then None else Some(data)
  }

  function EnsureSeed(save: Save, existing: Option<Data>): Option<Data> {
    var data := OrEmpty(save.inbound) - {SEED_KEY};
    if !save.OAuth() then OrUndefined(data)
    else
      var existingSeed := GetSeed(OrEmpty(existing));
      if existingSeed.Some? then Some(data[SEED_KEY := Str(existingSeed.value)])
      else if GetMode(data, true) != Off then Some(data[SEED_KEY := Str(save.drawn)])
      else OrUndefined(data)
  }

  lemma SeedIsNormal(data: Data)
    ensures GetSeed(data).Some? ==> NormalizeUuid(GetSeed(data)) == GetSeed(data)
  {
    if GetSeed(data).Some? {
      UuidIsTrimmed(GetSeed(data).value);
    }
  }

  /** A stored seed survives a save, whatever the save says, exactly when the save carries OAuth credentials. */
  lemma {:induction false} SeedSurvivesExactlyOAuthSaves(save: Save, existing: Option<Data>)
    requires GetSeed(OrEmpty(existing)).Some?
    ensures GetSeed(OrEmpty(EnsureSeed(save, existing))) == GetSeed(OrEmpty(existing)) <==> save.OAuth()
  {
    SeedIsNormal(OrEmpty(existing));
  }

  /** A save without tokens drops a stored seed. */
  lemma SaveWithoutTokensDropsTheSeed()
    ensures var stored: Data := map[SEED_KEY := Str("00000000-0000-4000-8000-000000000000")];
            && GetSeed(stored).Some?
            && EnsureSeed(Save(None, None, None, ""), Some(stored)).None?
  {
    var seed := "00000000-0000-4000-8000-000000000000";
    assert MatchesUuidPattern(seed);
    UuidIsTrimmed(seed);
    assert NonEmpty(None).None?;
  }

  /** Without one, a seed appears exactly on an OAuth save whose mode is not `off`, and is the fresh UUID. */
  lemma {:induction false} SeedIsCreatedWhenNeeded(save: Save, existing: Option<Data>)
    requires GetSeed(OrEmpty(existing)).None?
    requires MatchesUuidPattern(save.drawn)
    ensures GetSeed(OrEmpty(EnsureSeed(save, existing)))
         == if save.OAuth() && GetMode(OrEmpty(save.inbound), true) != Off then Some(save.drawn) else None
  {
    UuidIsTrimmed(save.drawn);
    var data := OrEmpty(save.inbound);
    assert ReadString(data - {SEED_KEY}, MODE_KEY) == ReadString(data, MODE_KEY);
    assert ReadString(data - {SEED_KEY}, "codex_fingerprint_mode") == ReadString(data, "codex_fingerprint_mode");
  }

  lemma {:induction false} OtherKeysAreStored(save: Save, existing: Option<Data>, key: string)
    requires key != SEED_KEY
    ensures Lookup(OrEmpty(EnsureSeed(save, existing)), key) == Lookup(OrEmpty(save.inbound), key)
  {
    var data := OrEmpty(save.inbound) - {SEED_KEY};
    assert Lookup(data, key) == Lookup(OrEmpty(save.inbound), key);
  }

  predicate OnlySeed(data: Data) {
    forall k :: k in data ==> k == SEED_KEY
  }

  lemma OnlySeedIs(data: Data)
    ensures data - {SEED_KEY} == map[] <==> OnlySeed(data)
  {
    if data - {SEED_KEY} == map[] {
      forall k | k in data
        ensures k == SEED_KEY
      {
        assert k != SEED_KEY ==> k in data - {SEED_KEY};
      }
    }
  }

  /** Every other key is stored as the save gives it, whatever was there before; nothing is stored exactly when there is neither such a key nor a seed. */
  lemma {:induction false} SaveStoresWhatItIsGiven(save: Save, existing: Option<Data>, key: string)
    ensures key != SEED_KEY ==> Lookup(OrEmpty(EnsureSeed(save, existing)), key) == Lookup(OrEmpty(save.inbound), key)
    ensures EnsureSeed(save, existing).None? <==>
            && OnlySeed(OrEmpty(save.inbound))
            && (!save.OAuth() || (GetSeed(OrEmpty(existing)).None? && GetMode(OrEmpty(save.inbound), true) == Off))
  {
    if key != SEED_KEY {
      OtherKeysAreStored(save, existing, key);
    }
    OnlySeedIs(OrEmpty(save.inbound));
    ModeIgnoresTheSeed(OrEmpty(save.inbound));
  }

  lemma ModeIgnoresTheSeed(data: Data)
    ensures GetMode(data - {SEED_KEY}, true) == GetMode(data, true)
  {
    assert ReadString(data - {SEED_KEY}, MODE_KEY) == ReadString(data, MODE_KEY);
    assert ReadString(data - {SEED_KEY}, "codex_fingerprint_mode") == ReadString(data, "codex_fingerprint_mode");
  }

  // ----- what the stored values mean -----

  /** A stored value that counts as a string: not blank, trimmed. */
  predicate Holds(data: Data, key: string, value: string) {
    value != "" && Trimmed(value) && key in data && data[key].Str? && Trim(data[key].s) == value
  }

  predicate HoldsNothing(data: Data, key: string) {
    key !in data || !data[key].Str? || Trim(data[key].s) == ""
  }

  lemma ReadingIs(data: Data, key: string, value: string)
    ensures NonEmpty(ReadString(data, key)) == Some(value) <==> Holds(data, key, value)
    ensures NonEmpty(ReadString(data, key)).None? <==> HoldsNothing(data, key)
  {
  }

  /** The seed is the stored string, if it is a UUID. */
  lemma SeedIsTheStoredUuid(data: Data, seed: string)
    ensures GetSeed(data) == Some(seed) <==> Holds(data, "codexFingerprintSeed", seed) && MatchesUuidPattern(seed)
  {
    if MatchesUuidPattern(seed) {
      UuidIsTrimmed(seed);
    }
  }

  function ModeNamed(name: string): Mode {
    if name == "off" then Off else if name == "device" then Device else if name == "full" then Full else Session
  }

  /** The mode is what the camel-case key names, ignoring case; for want of one, the snake-case key; session for anything else. Without OAuth it is off. */
  lemma ModeIs(data: Data, value: string)
    ensures Holds(data, "codexFingerprintMode", value) ==> GetMode(data, true) == ModeNamed(Lower(value))
    ensures HoldsNothing(data, "codexFingerprintMode") && Holds(data, "codex_fingerprint_mode", value) ==> GetMode(data, true) == ModeNamed(Lower(value))
    ensures HoldsNothing(data, "codexFingerprintMode") && HoldsNothing(data, "codex_fingerprint_mode") ==> GetMode(data, true) == Session
    ensures GetMode(data, false) == Off
  {
    ReadingIs(data, "codexFingerprintMode", value);
    ReadingIs(data, "codex_fingerprint_mode", value);
  }

  // ----- any sequence of saves, each fed what the one before stored -----

  function StoredAfter(initial: Option<Data>, saves: seq<Save>): Option<Data> {
    if saves == [] then initial
    else EnsureSeed(saves[|saves| - 1], StoredAfter(initial, saves[..|saves| - 1]))
  }

  /** Once stored, the seed is the same after every longer run of OAuth saves. */
  lemma {:induction false} SeedNeverChanges(initial: Option<Data>, saves: seq<Save>, i: nat)
    requires i <= |saves|
    requires forall j :: i <= j < |saves| ==> saves[j].OAuth()
    requires GetSeed(OrEmpty(StoredAfter(initial, saves[..i]))).Some?
    ensures GetSeed(OrEmpty(StoredAfter(initial, saves))) == GetSeed(OrEmpty(StoredAfter(initial, saves[..i])))
  {
    if i == |saves| {
      assert saves[..i] == saves;
    } else {
      var shorter := saves[..|saves| - 1];
      assert shorter[..i] == saves[..i];
      SeedNeverChanges(initial, shorter, i);
      SeedSurvivesExactlyOAuthSaves(saves[|saves| - 1], StoredAfter(initial, shorter));
    }
  }

  /** A stored seed was there from the start or was drawn at random by one of the saves. */
  lemma {:induction false} SeedComesFromTheServer(initial: Option<Data>, saves: seq<Save>)
    ensures var seed := GetSeed(OrEmpty(StoredAfter(initial, saves)));
            seed.Some? ==>
              || GetSeed(OrEmpty(initial)) == seed
              || exists i :: 0 <= i < |saves| && NormalizeUuid(Some(saves[i].drawn)) == seed
  {
    if saves != [] {
      var shorter, last := saves[..|saves| - 1], saves[|saves| - 1];
      SeedComesFromTheServer(initial, shorter);
      var before := StoredAfter(initial, shorter);
      var seed := GetSeed(OrEmpty(StoredAfter(initial, saves)));
      SeedIsNormal(OrEmpty(before));
      if seed.Some? && GetSeed(OrEmpty(before)) != seed {
        assert NormalizeUuid(Some(last.drawn)) == seed;
        assert saves[|saves| - 1] == last;
      } else if seed.Some? && GetSeed(OrEmpty(initial)) != seed {
        var i :| 0 <= i < |shorter| && NormalizeUuid(Some(shorter[i].drawn)) == seed;
        assert saves[i] == shorter[i];
      }
    }
  }

  predicate SameButForSeed(a: Save, b: Save) {
    && OrEmpty(a.inbound) - {SEED_KEY} == OrEmpty(b.inbound) - {SEED_KEY}
    && a.(inbound := None) == b.(inbound := None)
  }

  /** No inbound seed value has any influence on anything that is ever stored. */
  lemma {:induction false} InboundSeedHasNoInfluence(initial: Option<Data>, a: seq<Save>, b: seq<Save>)
    requires |a| == |b|
    requires forall i :: 0 <= i < |a| ==> SameButForSeed(a[i], b[i])
    ensures StoredAfter(initial, a) == StoredAfter(initial, b)
  {
    if a != [] {
      var n := |a| - 1;
      InboundSeedHasNoInfluence(initial, a[..n], b[..n]);
      assert SameButForSeed(a[n], b[n]);
      assert a[n].OAuth() == b[n].OAuth() && a[n].drawn == b[n].drawn by {
        assert a[n].accessToken == a[n].(inbound := None).accessToken == b[n].accessToken;
        assert a[n].refreshToken == a[n].(inbound := None).refreshToken == b[n].refreshToken;
        assert a[n].drawn == a[n].(inbound := None).drawn == b[n].drawn;
      }
    }
  }

  // ----- the ids derived from it; `sha` is SHA-256 -----

  const OWNER_KEYS := ["workspaceId", "accountId", "email"]
  const ACCOUNT_KEYS := ["connectionId"] + OWNER_KEYS

  /** The first string held under any of the keys. */
  function FirstRead(data: Data, keys: seq<string>): Option<string> {
    if keys == [] then None else FirstOf(NonEmpty(ReadString(data, keys[0])), FirstRead(data, keys[1..]))
  }

  function AccountSeed(data: Data, accountKey: Option<string>): string {
    var named := FirstOf(NonEmpty(accountKey), FirstRead(data, ACCOUNT_KEYS));
    if named.Some? then named.value else "default"
  }

  function StableId(sha: string -> Digest, text: string): (id: string)
    ensures MatchesUuidPattern(id)
  {
    DerivedIsVersion4(sha(text));
    DeriveStableUuidV4(sha(text))
  }

  function LegacyInstallationId(sha: string -> Digest, text: string): (id: string)
    ensures MatchesUuidPattern(id)
  {
    LegacyIsAccepted(sha(text));
    UuidFromLegacyDigest(sha(text))
  }

  /** The stored value an installation id comes from, in order of precedence. */
  datatype Source = Explicit(id: string) | Seeded(seed: string) | Legacy(owner: string) | Account(key: string)

  function InstallationSource(data: Data, accountKey: Option<string>): (source: Source)
    ensures source.Explicit? ==> MatchesUuidPattern(source.id)
  {
    var explicit := NormalizeUuid(ReadString(data, "codexInstallationId"));
    var seed := GetSeed(data);
    var legacy := FirstRead(data, OWNER_KEYS);
    if explicit.Some? then Explicit(explicit.value)
    else if seed.Some? then Seeded(seed.value)
    else if legacy.Some? then Legacy(legacy.value)
    else Account(AccountSeed(data, accountKey))
  }

  /** The text whose digest gives the id. */
  function InstallationText(source: Source): string
    requires !source.Explicit?
  {
    if source.Seeded? then "omniroute:codex-installation:v2:" + source.seed
    else "omniroute-codex-installation:" + if source.Legacy? then source.owner else source.key
  }

  function InstallationId(sha: string -> Digest, data: Data, accountKey: Option<string>): (id: string)
    ensures MatchesUuidPattern(id)
  {
    var source := InstallationSource(data, accountKey);
    if source.Explicit? then source.id
    else if source.Legacy? then LegacyInstallationId(sha, InstallationText(source))
    else StableId(sha, InstallationText(source))
  }

  function SessionText(data: Data, accountKey: Option<string>): string {
    var seed := GetSeed(data);
    if seed.Some? then "omniroute:codex-session-id:v2:" + seed.value
    else "omniroute:codex-session-id:v1:" + AccountSeed(data, accountKey)
  }

  function ConvergedSessionId(sha: string -> Digest, data: Data, accountKey: Option<string>): (id: string)
    ensures MatchesUuidPattern(id)
  {
    StableId(sha, SessionText(data, accountKey))
  }

  function ThreadText(client: string, data: Data, accountKey: Option<string>): string {
    var seed := GetSeed(data);
    if seed.Some? then "omniroute:codex-thread-id:v2:" + (seed.value + (":" + client))
    else "omniroute:codex-thread-id:v1:" + (AccountSeed(data, accountKey) + (":" + client))
  }

  /** Empty for want of a client session. */
  function ConvergedThreadId(sha: string -> Digest, client: Option<string>, data: Data, accountKey: Option<string>): (id: string)
    ensures if NonEmpty(client).None? then id == "" else MatchesUuidPattern(id)
  {
    if NonEmpty(client).None? then "" else StableId(sha, ThreadText(client.value, data, accountKey))
  }

  // ----- where the ids come from, by the stored values -----

  ghost predicate FirstHeldAt(data: Data, keys: seq<string>, value: string, i: nat) {
    i < |keys| && Holds(data, keys[i], value) && forall j :: 0 <= j < i ==> HoldsNothing(data, keys[j])
  }

  /** `value` is held under the first of these keys that holds anything. */
  ghost predicate FirstHeld(data: Data, keys: seq<string>, value: string) {
    exists i: nat :: FirstHeldAt(data, keys, value, i)
  }

  ghost predicate NoneHeld(data: Data, keys: seq<string>) {
    forall i :: 0 <= i < |keys| ==> HoldsNothing(data, keys[i])
  }

  lemma NothingFirst(data: Data, keys: seq<string>, value: string)
    requires keys != [] && HoldsNothing(data, keys[0])
    ensures FirstHeld(data, keys, value) <==> FirstHeld(data, keys[1..], value)
    ensures NoneHeld(data, keys) <==> NoneHeld(data, keys[1..])
  {
    var rest := keys[1..];
    assert forall j :: 0 < j < |keys| ==> keys[j] == rest[j - 1];
    forall i: nat | FirstHeldAt(data, keys, value, i)
      ensures FirstHeld(data, rest, value)
    {
      assert FirstHeldAt(data, rest, value, i - 1);
    }
    forall i: nat | FirstHeldAt(data, rest, value, i)
      ensures FirstHeld(data, keys, value)
    {
      assert FirstHeldAt(data, keys, value, i + 1);
    }
  }

  lemma SomethingFirst(data: Data, keys: seq<string>, value: string)
    requires keys != [] && !HoldsNothing(data, keys[0])
    ensures FirstHeld(data, keys, value) <==> Holds(data, keys[0], value)
    ensures !NoneHeld(data, keys)
  {
    assert Holds(data, keys[0], value) ==> FirstHeldAt(data, keys, value, 0);
  }

  lemma {:induction false} FirstReadIs(data: Data, keys: seq<string>, value: string)
    ensures FirstRead(data, keys) == Some(value) <==> FirstHeld(data, keys, value)
    ensures FirstRead(data, keys).None? <==> NoneHeld(data, keys)
  {
    if keys != [] {
      FirstReadIs(data, keys[1..], value);
      ReadingIs(data, keys[0], value);
      if HoldsNothing(data, keys[0]) {
        NothingFirst(data, keys, value);
      } else {
        SomethingFirst(data, keys, value);
      }
    }
  }

  /** An unseeded connection is known by the caller's key, else by the first identifier it stores. */
  lemma {:induction false} AccountIs(data: Data, accountKey: Option<string>, value: string)
    ensures NonEmpty(accountKey).Some? ==> AccountSeed(data, accountKey) == NonEmpty(accountKey).value
    ensures NonEmpty(accountKey).None? && FirstHeld(data, ["connectionId", "workspaceId", "accountId", "email"], value) ==>
              AccountSeed(data, accountKey) == value
    ensures NonEmpty(accountKey).None? && NoneHeld(data, ["connectionId", "workspaceId", "accountId", "email"]) ==>
              AccountSeed(data, accountKey) == "default"
  {
    assert ACCOUNT_KEYS == ["connectionId", "workspaceId", "accountId", "email"];
    FirstReadIs(data, ACCOUNT_KEYS, value);
  }

  ghost predicate HoldsUuid(data: Data, key: string) {
    exists id :: Holds(data, key, id) && MatchesUuidPattern(id)
  }

  lemma UuidReadingIs(data: Data, key: string, id: string)
    ensures NormalizeUuid(ReadString(data, key)) == Some(id) <==> Holds(data, key, id) && MatchesUuidPattern(id)
  {
    if MatchesUuidPattern(id) {
      UuidIsTrimmed(id);
    }
  }

  lemma UuidIsHeld(data: Data, key: string)
    ensures NormalizeUuid(ReadString(data, key)).Some? <==> HoldsUuid(data, key)
  {
    var r := NormalizeUuid(ReadString(data, key));
    if r.Some? {
      UuidReadingIs(data, key, r.value);
    }
    forall id | Holds(data, key, id) && MatchesUuidPattern(id)
      ensures r.Some?
    {
      UuidReadingIs(data, key, id);
    }
  }

  /** A configured UUID first, then the seed, then the first stored owner, then the account. */
  lemma {:induction false} InstallationSourceIs(data: Data, accountKey: Option<string>, value: string)
    ensures var source := InstallationSource(data, accountKey);
            var configured, seeded := HoldsUuid(data, "codexInstallationId"), HoldsUuid(data, "codexFingerprintSeed");
            && (MatchesUuidPattern(value) && Holds(data, "codexInstallationId", value) ==> source == Explicit(value))
            && (!configured && MatchesUuidPattern(value) && Holds(data, "codexFingerprintSeed", value) ==> source == Seeded(value))
            && (!configured && !seeded && FirstHeld(data, ["workspaceId", "accountId", "email"], value) ==> source == Legacy(value))
            && (!configured && !seeded && NoneHeld(data, ["workspaceId", "accountId", "email"]) ==>
                  source == Account(AccountSeed(data, accountKey)))
  {
    UuidReadingIs(data, "codexInstallationId", value);
    UuidReadingIs(data, "codexFingerprintSeed", value);
    UuidIsHeld(data, "codexInstallationId");
    UuidIsHeld(data, "codexFingerprintSeed");
    FirstReadIs(data, OWNER_KEYS, value);
  }

  /** What each source makes of the id: used as it is, hashed in the legacy layout, or hashed as version 4. */
  lemma {:induction false} InstallationIdIs(sha: string -> Digest, data: Data, accountKey: Option<string>)
    ensures var id, source := InstallationId(sha, data, accountKey), InstallationSource(data, accountKey);
            match source
            case Explicit(own) => id == own
            case Seeded(seed) => id == DeriveStableUuidV4(sha("omniroute:codex-installation:v2:" + seed))
            case Legacy(owner) => id == UuidFromLegacyDigest(sha("omniroute-codex-installation:" + owner))
            case Account(key) => id == DeriveStableUuidV4(sha("omniroute-codex-installation:" + key))
  {
  }

  /** Session and thread come from the seed alone once there is one, and from the account before. */
  lemma {:induction false} ConvergedIdsAre(sha: string -> Digest, client: string, data: Data, accountKey: Option<string>, seed: string)
    requires client != "" && Trimmed(client)
    ensures MatchesUuidPattern(seed) && Holds(data, "codexFingerprintSeed", seed) ==>
              && ConvergedSessionId(sha, data, accountKey) == DeriveStableUuidV4(sha("omniroute:codex-session-id:v2:" + seed))
              && ConvergedThreadId(sha, Some(client), data, accountKey)
                 == DeriveStableUuidV4(sha("omniroute:codex-thread-id:v2:" + (seed + (":" + client))))
    ensures !HoldsUuid(data, "codexFingerprintSeed") ==>
              && ConvergedSessionId(sha, data, accountKey)
                 == DeriveStableUuidV4(sha("omniroute:codex-session-id:v1:" + AccountSeed(data, accountKey)))
              && ConvergedThreadId(sha, Some(client), data, accountKey)
                 == DeriveStableUuidV4(sha("omniroute:codex-thread-id:v1:" + (AccountSeed(data, accountKey) + (":" + client))))
  {
    UuidReadingIs(data, "codexFingerprintSeed", seed);
    UuidIsHeld(data, "codexFingerprintSeed");
  }

  lemma {:induction false} IdsComeFromTheSeed(sha: string -> Digest, client: Option<string>, a: Data, b: Data,
                                              keyA: Option<string>, keyB: Option<string>)
    requires GetSeed(a).Some? && GetSeed(a) == GetSeed(b)
    ensures ConvergedSessionId(sha, a, keyA) == ConvergedSessionId(sha, b, keyB)
    ensures ConvergedThreadId(sha, client, a, keyA) == ConvergedThreadId(sha, client, b, keyB)
  {
  }

  /** From the first stored seed on, session and thread ids are constants of the connection, whatever key asks. */
  lemma {:induction false} ConvergedIdsAreConstant(sha: string -> Digest, initial: Option<Data>, saves: seq<Save>, i: nat,
                                client: Option<string>, keyA: Option<string>, keyB: Option<string>)
    requires i <= |saves|
    requires forall j :: i <= j < |saves| ==> saves[j].OAuth()
    requires GetSeed(OrEmpty(StoredAfter(initial, saves[..i]))).Some?
    ensures var now, later := OrEmpty(StoredAfter(initial, saves[..i])), OrEmpty(StoredAfter(initial, saves));
            && ConvergedSessionId(sha, later, keyA) == ConvergedSessionId(sha, now, keyB)
            && ConvergedThreadId(sha, client, later, keyA) == ConvergedThreadId(sha, client, now, keyB)
  {
    SeedNeverChanges(initial, saves, i);
    IdsComeFromTheSeed(sha, client, OrEmpty(StoredAfter(initial, saves)), OrEmpty(StoredAfter(initial, saves[..i])), keyA, keyB);
  }

  /** So is the installation id, as long as no explicit one is configured. */
  lemma {:induction false} InstallationIdIsConstant(sha: string -> Digest, initial: Option<Data>, saves: seq<Save>, i: nat,
                                 keyA: Option<string>, keyB: Option<string>)
    requires i <= |saves|
    requires forall j :: i <= j < |saves| ==> saves[j].OAuth()
    requires GetSeed(OrEmpty(StoredAfter(initial, saves[..i]))).Some?
    ensures var now, later := OrEmpty(StoredAfter(initial, saves[..i])), OrEmpty(StoredAfter(initial, saves));
            && NormalizeUuid(ReadString(now, "codexInstallationId")).None?
            && NormalizeUuid(ReadString(later, "codexInstallationId")).None?
            ==> InstallationId(sha, later, keyA) == InstallationId(sha, now, keyB)
  {
    SeedNeverChanges(initial, saves, i);
  }

  /** Two connections share a session id exactly when their digests agree on the 122 free bits; seeded ones digest the seed and nothing else. */
  lemma {:induction false} SessionIdCollision(sha: string -> Digest, a: Data, b: Data, keyA: Option<string>, keyB: Option<string>)
    ensures ConvergedSessionId(sha, a, keyA) == ConvergedSessionId(sha, b, keyB) <==>
            SameFreeBits(sha(SessionText(a, keyA)), sha(SessionText(b, keyB)))
    ensures GetSeed(a).Some? && GetSeed(b).Some? ==>
              (SessionText(a, keyA) == SessionText(b, keyB) <==> GetSeed(a) == GetSeed(b))
  {
    DerivedCollision(sha(SessionText(a, keyA)), sha(SessionText(b, keyB)));
    if GetSeed(a).Some? && GetSeed(b).Some? {
      SamePrefix("omniroute:codex-session-id:v2:", GetSeed(a).value, GetSeed(b).value);
    }
  }

  lemma SamePrefix(prefix: string, a: string, b: string)
    ensures prefix + a == prefix + b <==> a == b
  {
    assert (prefix + a)[|prefix|..] == a && (prefix + b)[|prefix|..] == b;
  }

  lemma SameParts(a: string, b: string, c: string, d: string)
    requires |a| == |b|
    ensures a + c == b + d <==> a == b && c == d
  {
    assert (a + c)[..|a|] == a && (b + d)[..|b|] == b;
    assert (a + c)[|a|..] == c && (b + d)[|b|..] == d;
  }

  /** Two requests share a thread id exactly when neither names a client session, or both do and their digests agree on the free bits. */
  lemma {:induction false} ThreadIdCollision(sha: string -> Digest, clientA: Option<string>, a: Data, keyA: Option<string>,
                                             clientB: Option<string>, b: Data, keyB: Option<string>)
    ensures ConvergedThreadId(sha, clientA, a, keyA) == ConvergedThreadId(sha, clientB, b, keyB) <==>
            if NonEmpty(clientA).None? || NonEmpty(clientB).None? then NonEmpty(clientA).None? && NonEmpty(clientB).None?
            else SameFreeBits(sha(ThreadText(clientA.value, a, keyA)), sha(ThreadText(clientB.value, b, keyB)))
  {
    if NonEmpty(clientA).Some? && NonEmpty(clientB).Some? {
      DerivedCollision(sha(ThreadText(clientA.value, a, keyA)), sha(ThreadText(clientB.value, b, keyB)));
    }
  }

  /** Seeded connections digest different texts for every other seed and for every other client. */
  lemma {:induction false} SeededThreadsAreSeparate(clientA: string, a: Data, keyA: Option<string>, clientB: string, b: Data, keyB: Option<string>)
    requires GetSeed(a).Some? && GetSeed(b).Some?
    ensures ThreadText(clientA, a, keyA) == ThreadText(clientB, b, keyB) <==> GetSeed(a) == GetSeed(b) && clientA == clientB
  {
    var s, t := GetSeed(a).value, GetSeed(b).value;
    SamePrefix("omniroute:codex-thread-id:v2:", s + (":" + clientA), t + (":" + clientB));
    SameParts(s, t, ":" + clientA, ":" + clientB);
    SamePrefix(":", clientA, clientB);
  }

  /** The bits of a source's digest that its layout keeps. */
  predicate SameInstallationBits(sha: string -> Digest, s: Source, t: Source)
    requires !s.Explicit? && !t.Explicit?
  {
    var d, e := sha(InstallationText(s)), sha(InstallationText(t));
    if s.Legacy? then SameLegacyBits(d, e) else SameFreeBits(d, e)
  }

  /** A configured id is used as it is; ids of one layout coincide exactly when the digests agree on the bits it keeps. */
  lemma {:induction false} InstallationIdCollision(sha: string -> Digest, a: Data, b: Data, keyA: Option<string>, keyB: Option<string>)
    ensures var s, t := InstallationSource(a, keyA), InstallationSource(b, keyB);
            && (s.Explicit? ==> InstallationId(sha, a, keyA) == s.id)
            && (!s.Explicit? && !t.Explicit? && s.Legacy? == t.Legacy? ==>
                  (InstallationId(sha, a, keyA) == InstallationId(sha, b, keyB) <==> SameInstallationBits(sha, s, t)))
  {
    var s, t := InstallationSource(a, keyA), InstallationSource(b, keyB);
    if !s.Explicit? && !t.Explicit? {
      var d, e := sha(InstallationText(s)), sha(InstallationText(t));
      DerivedCollision(d, e);
      LegacyCollision(d, e);
    }
  }
}

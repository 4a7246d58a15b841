/**
 One Codex client identity written into many carriers: request headers, the
 body's client_metadata, and the turn metadata nested as JSON text in both.
 */
module CodexCarriers {
  import opened Prelude
  import opened StableUuid
  import opened CodexSeed
  import TurnState

  datatype Identity = Identity(
    mode: Mode,
    installationId: string,
    sessionId: string,
    threadId: string,
    turnId: string,
    windowId: string,
    turnStartedAtUnixMs: int
  )

  // ----- creating the identity -----

  /** In full mode, and for want of a client session, the thread is the session. */
  function ConvergedIdentity(mode: Mode, installation: string, session: string, thread: string, turnUuid: string, now: int): Identity {
    var threadId := if mode == Full || thread == "" then session else thread;
    Identity(mode, installation, session, threadId, turnUuid, threadId + ":0", now)
  }

  /** `turnUuid` is what `randomUUID` returns and `now` what the clock reads. */
  function CreateIdentity(sha: string -> Digest, client: Option<string>, data: Data, mode: Mode, accountKey: Option<string>,
                          turnUuid: string, now: int): Option<Identity>
  {
    var installation := InstallationId(sha, data, accountKey);
    match mode
    case Off => None
    case Device => Some(Identity(mode, installation, "", "", "", "", now))
    case _ =>
      Some(ConvergedIdentity(mode, installation, ConvergedSessionId(sha, data, accountKey),
                             ConvergedThreadId(sha, client, data, accountKey), turnUuid, now))
  }

  predicate Converges(id: Identity) {
    id.mode == Session || id.mode == Full
  }

  ghost predicate Complete(id: Identity) {
    && Converges(id)
    && MatchesUuidPattern(id.installationId)
    && MatchesUuidPattern(id.sessionId)
    && MatchesUuidPattern(id.threadId)
    && MatchesUuidPattern(id.turnId)
    && id.windowId == id.threadId + ":0"
  }

  /** In session and full mode every id is there and is a UUID; turn id and start time are the ones drawn for this turn, the others the connection's. */
  lemma IdentityIsComplete(sha: string -> Digest, client: Option<string>, data: Data, mode: Mode, accountKey: Option<string>,
                           turnUuid: string, now: int)
    requires mode == Session || mode == Full
    requires MatchesUuidPattern(turnUuid)
    ensures var id := CreateIdentity(sha, client, data, mode, accountKey, turnUuid, now);
            && id.Some? && Complete(id.value) && id.value.mode == mode
            && id.value.turnId == turnUuid && id.value.turnStartedAtUnixMs == now
            && id.value.installationId == InstallationId(sha, data, accountKey)
            && id.value.sessionId == ConvergedSessionId(sha, data, accountKey)
            && id.value.threadId == if mode == Full || NonEmpty(client).None? then id.value.sessionId
                                    else ConvergedThreadId(sha, client, data, accountKey)
  {
  }

  /** Device mode shares the installation alone; off makes no identity. */
  lemma OtherModesShareLess(sha: string -> Digest, client: Option<string>, data: Data, accountKey: Option<string>, turnUuid: string, now: int)
    ensures CreateIdentity(sha, client, data, Off, accountKey, turnUuid, now).None?
    ensures CreateIdentity(sha, client, data, Device, accountKey, turnUuid, now)
         == Some(Identity(Device, InstallationId(sha, data, accountKey), "", "", "", "", now))
  {
  }

  predicate SameIds(a: Option<Identity>, b: Option<Identity>) {
    && (a.Some? <==> b.Some?)
    && (a.Some? ==> a.value.sessionId == b.value.sessionId && a.value.threadId == b.value.threadId && a.value.windowId == b.value.windowId)
  }

  /** The ids a client gets in a mode depend on the seed alone, whatever else is stored and whichever key asks. */
  lemma {:induction false} IdsFollowTheSeed(sha: string -> Digest, client: Option<string>, a: Data, b: Data, mode: Mode,
                                            keyA: Option<string>, keyB: Option<string>, turnA: string, turnB: string, timeA: int, timeB: int)
    requires GetSeed(a).Some? && GetSeed(a) == GetSeed(b)
    ensures SameIds(CreateIdentity(sha, client, a, mode, keyA, turnA, timeA), CreateIdentity(sha, client, b, mode, keyB, turnB, timeB))
  {
    IdsComeFromTheSeed(sha, client, a, b, keyA, keyB);
    if mode != Off && mode != Device {
      var session, thread := ConvergedSessionId(sha, a, keyA), ConvergedThreadId(sha, client, a, keyA);
      assert CreateIdentity(sha, client, a, mode, keyA, turnA, timeA)
          == Some(ConvergedIdentity(mode, InstallationId(sha, a, keyA), session, thread, turnA, timeA));
      assert CreateIdentity(sha, client, b, mode, keyB, turnB, timeB)
          == Some(ConvergedIdentity(mode, InstallationId(sha, b, keyB), session, thread, turnB, timeB));
    }
  }

  /** So from the first stored seed on they are the same after every later run of OAuth saves. */
  lemma {:induction false} IdentityIsStableAcrossSaves(sha: string -> Digest, initial: Option<Data>, saves: seq<Save>, i: nat, client: Option<string>,
                                                       mode: Mode, keyA: Option<string>, keyB: Option<string>,
                                                       turnA: string, turnB: string, timeA: int, timeB: int)
    requires i <= |saves|
    requires forall j :: i <= j < |saves| ==> saves[j].OAuth()
    requires GetSeed(OrEmpty(StoredAfter(initial, saves[..i]))).Some?
    ensures SameIds(CreateIdentity(sha, client, OrEmpty(StoredAfter(initial, saves[..i])), mode, keyA, turnA, timeA),
                    CreateIdentity(sha, client, OrEmpty(StoredAfter(initial, saves)), mode, keyB, turnB, timeB))
  {
    SeedNeverChanges(initial, saves, i);
    var now, later := OrEmpty(StoredAfter(initial, saves[..i])), OrEmpty(StoredAfter(initial, saves));
    IdsFollowTheSeed(sha, client, now, later, mode, keyA, keyB, turnA, turnB, timeA, timeB);
  }

  /** In session mode all clients share the session id, and two share a thread exactly when their digests collide on the 122 free bits. */
  lemma {:induction false} ThreadsSeparateClients(sha: string -> Digest, data: Data, key: Option<string>, client: string, other: string,
                               turnA: string, turnB: string, now: int)
    requires NonEmpty(Some(client)).Some? && NonEmpty(Some(other)).Some?
    ensures var a := CreateIdentity(sha, Some(client), data, Session, key, turnA, now).value;
            var b := CreateIdentity(sha, Some(other), data, Session, key, turnB, now).value;
            && a.sessionId == b.sessionId
            && (a.threadId == b.threadId <==>
                SameFreeBits(sha(ThreadText(client, data, key)), sha(ThreadText(other, data, key))))
  {
    ThreadIdCollision(sha, Some(client), data, key, Some(other), data, key);
    var installation, session := InstallationId(sha, data, key), ConvergedSessionId(sha, data, key);
    var a, b := ConvergedThreadId(sha, Some(client), data, key), ConvergedThreadId(sha, Some(other), data, key);
    assert |a| == |b| == 36;
    assert CreateIdentity(sha, Some(client), data, Session, key, turnA, now)
        == Some(ConvergedIdentity(Session, installation, session, a, turnA, now));
    assert CreateIdentity(sha, Some(other), data, Session, key, turnB, now)
        == Some(ConvergedIdentity(Session, installation, session, b, turnB, now));
  }

  // ----- fingerprint identity or the client's own headers, never both -----

  datatype Credentials = Credentials(
    connectionId: Option<string>,
    isCompact: bool,
    accessToken: Option<string>,
    refreshToken: Option<string>,
    data: Data
  )

  const IDENTITY_HEADER_NAMES := [
    "session-id", "session_id", "thread-id", "thread_id", "x-client-request-id",
    "x-codex-installation-id", "x-codex-window-id", "x-codex-turn-metadata"
  ]

  function NamedHeaders(headers: Object<Option<string>>, names: seq<string>): Object<string> {
    if names == [] then []
    else
      var value := TurnState.ReadNamedHeader(headers, names[0]);
      (if value.Some? then [(names[0], value.value)] else []) + NamedHeaders(headers, names[1..])
  }

  function ResolveOriginalHeaders(cred: Option<Credentials>, headers: Object<Option<string>>): Option<Object<string>> {
    if cred.None? || cred.value.isCompact then None
    else if !IsOAuth(cred.value.accessToken, cred.value.refreshToken) || GetMode(cred.value.data, true) != Off then None
    else
      var found := NamedHeaders(headers, IDENTITY_HEADER_NAMES);
      if found == [] then None else Some(found)
  }

  function ResolveIdentity(sha: string -> Digest, cred: Option<Credentials>, headers: Object<Option<string>>,
                           turnUuid: string, now: int): Option<Identity>
  {
    if cred.None? || cred.value.isCompact then None
    else
      var mode := GetMode(cred.value.data, IsOAuth(cred.value.accessToken, cred.value.refreshToken));
      if mode == Off then None
      else CreateIdentity(sha, TurnState.ClientSessionId(headers), cred.value.data, mode, cred.value.connectionId, turnUuid, now)
  }

  /** At most one of the two is produced, for every request; and a convergent identity is complete. */
  lemma IdentityExcludesPassthrough(sha: string -> Digest, cred: Option<Credentials>, headers: Object<Option<string>>,
                                    turnUuid: string, now: int)
    requires MatchesUuidPattern(turnUuid)
    ensures var id := ResolveIdentity(sha, cred, headers, turnUuid, now);
            && !(id.Some? && ResolveOriginalHeaders(cred, headers).Some?)
            && (id.Some? <==> cred.Some? && !cred.value.isCompact && IsOAuth(cred.value.accessToken, cred.value.refreshToken)
                              && GetMode(cred.value.data, true) != Off)
            && (id.Some? && id.value.mode != Device ==> Complete(id.value))
  {
  }

  /** The identity is made for the session the client's headers name, and for the connection's own key. */
  lemma IdentityIsForTheNamedSession(sha: string -> Digest, cred: Credentials, headers: Object<Option<string>>, turnUuid: string, now: int, session: string)
    requires !cred.isCompact && IsOAuth(cred.accessToken, cred.refreshToken)
    ensures var mode := GetMode(cred.data, true);
            var id := ResolveIdentity(sha, Some(cred), headers, turnUuid, now);
            && (TurnState.NamesSession(headers, session) ==> id == CreateIdentity(sha, Some(session), cred.data, mode, cred.connectionId, turnUuid, now))
            && ((forall s :: !TurnState.NamesSession(headers, s)) ==> id == CreateIdentity(sha, None, cred.data, mode, cred.connectionId, turnUuid, now))
  {
    TurnState.SessionIsNamed(headers, session);
    var named := TurnState.ClientSessionId(headers);
    if named.Some? {
      TurnState.SessionIsNamed(headers, named.value);
    }
  }

  lemma {:induction false} NamedHeadersAre(headers: Object<Option<string>>, names: seq<string>, name: string, value: string)
    ensures Get(NamedHeaders(headers, names), name) == Some(value) <==> name in names && TurnState.Offered(headers, name, value)
  {
    TurnState.OfferedIsRead(headers, name, value);
    if names != [] {
      NamedHeadersAre(headers, names[1..], name, value);
      var read := TurnState.ReadNamedHeader(headers, names[0]);
      var rest := NamedHeaders(headers, names[1..]);
      if read.Some? {
        assert ([(names[0], read.value)] + rest)[1..] == rest;
      } else {
        assert [] + rest == rest;
      }
    }
  }

  /** With fingerprinting off, the client's own identity headers go through: each name that offers a value, with that value, and no other. */
  lemma PassthroughIs(cred: Credentials, headers: Object<Option<string>>, name: string, value: string)
    requires !cred.isCompact && IsOAuth(cred.accessToken, cred.refreshToken) && GetMode(cred.data, true) == Off
    ensures var found := ResolveOriginalHeaders(Some(cred), headers);
            (found.Some? && Get(found.value, name) == Some(value)) <==> name in IDENTITY_HEADER_NAMES && TurnState.Offered(headers, name, value)
  {
    NamedHeadersAre(headers, IDENTITY_HEADER_NAMES, name, value);
  }

  // ----- nested turn metadata -----

  /** `JSON.parse` (nothing on a syntax error) and `JSON.stringify` on objects. */
  datatype Codec = Codec(parse: string -> Option<Json>, stringify: Object<Json> -> string)

  /** Parsing undoes printing on everything JavaScript can hold, printed objects are not blank, and parsing yields only such values. */
  ghost predicate Lawful(codec: Codec) {
    && (forall o: Object<Json> :: Proper(Obj(o)) ==> codec.parse(codec.stringify(o)) == Some(Obj(o)) && Trim(codec.stringify(o)) != "")
    && (forall s: string :: codec.parse(s).Some? ==> Proper(codec.parse(s).value))
  }

  const TURN_METADATA := "x-codex-turn-metadata"

  function ParsedMetadata(codec: Codec, raw: Option<Json>): Option<Object<Json>> {
    if raw.Some? && raw.value.Str? && Trim(raw.value.s) != "" then
      match codec.parse(raw.value.s)
      case Some(Obj(fields)) => Some(fields)
      case _ => None
    else None
  }

  /** The ids a carrier gets; `threadId || sessionId` as the source writes it. */
  function SharedThread(id: Identity): string {
    if id.threadId != "" then id.threadId else id.sessionId
  }

  function TurnUpdates(id: Identity, full: bool): Object<Json> {
    [("installation_id", Str(id.installationId))]
    + if full then [
        ("session_id", Str(id.sessionId)),
        ("thread_id", Str(SharedThread(id))),
        ("turn_id", Str(id.turnId)),
        ("window_id", Str(id.windowId)),
        ("turn_started_at_unix_ms", Num(id.turnStartedAtUnixMs))
      ] else []
  }

  /** What the ids are written over: the incoming object, or two defaults where a complete carrier is needed. */
  function TurnBase(parsed: Option<Object<Json>>, full: bool): Object<Json> {
    if parsed.Some? then parsed.value
    else if full then [("thread_source", Str("user")), ("sandbox", Str("none"))]
    else []
  }

  function MergedTurn(codec: Codec, raw: Option<Json>, id: Identity, full: bool): Object<Json> {
    var parsed := ParsedMetadata(codec, raw);
    SetAll(TurnBase(parsed, full), TurnUpdates(id, full))
  }

  function MergeTurnMetadata(codec: Codec, raw: Option<Json>, id: Identity, full: bool): string {
    codec.stringify(MergedTurn(codec, raw, id, full))
  }

  lemma TurnUpdatesAreDistinct(id: Identity, full: bool)
    ensures UniqueKeys(TurnUpdates(id, full))
  {
  }

  lemma {:induction false} SetFirstKeepsProper(o: Object<Json>, updates: Object<Json>, n: nat)
    requires n <= |updates| && Proper(Obj(o)) && forall u :: u in updates ==> Proper(u.1)
    ensures Proper(Obj(SetFirst(o, updates, n)))
  {
    if n > 0 {
      SetFirstKeepsProper(o, updates, n - 1);
      SetKeepsUniqueKeys(SetFirst(o, updates, n - 1), updates[n - 1].0, updates[n - 1].1);
    }
  }

  lemma TurnBaseIsProper(parsed: Option<Object<Json>>, full: bool)
    requires parsed.Some? ==> Proper(Obj(parsed.value))
    ensures Proper(Obj(TurnBase(parsed, full)))
  {
  }

  lemma MergedTurnIsProper(codec: Codec, raw: Option<Json>, id: Identity, full: bool)
    requires Lawful(codec)
    ensures Proper(Obj(MergedTurn(codec, raw, id, full)))
  {
    var parsed := ParsedMetadata(codec, raw);
    if parsed.Some? {
      assert Proper(codec.parse(raw.value.s).value);
    }
    TurnBaseIsProper(parsed, full);
    SetFirstKeepsProper(TurnBase(parsed, full), TurnUpdates(id, full), |TurnUpdates(id, full)|);
  }

  /** The printed metadata, read back, is the merged object; merging the same identity again prints the same text. */
  lemma MergeReadsBack(codec: Codec, raw: Option<Json>, id: Identity, full: bool)
    requires Lawful(codec)
    ensures var text := Some(Str(MergeTurnMetadata(codec, raw, id, full)));
            && ParsedMetadata(codec, text) == Some(MergedTurn(codec, raw, id, full))
            && MergeTurnMetadata(codec, text, id, full) == text.value.s
  {
    MergedTurnIsProper(codec, raw, id, full);
    TurnUpdatesAreDistinct(id, full);
    var parsed := ParsedMetadata(codec, raw);
    var base := TurnBase(parsed, full);
    SetAllTwice(base, TurnUpdates(id, full));
  }

  /** A turn-metadata text spells exactly the ids of `id`. */
  ghost predicate TurnCarries(codec: Codec, raw: Option<Json>, id: Identity) {
    var m := ParsedMetadata(codec, raw);
    && m.Some?
    && Get(m.value, "installation_id") == Some(Str(id.installationId))
    && Get(m.value, "session_id") == Some(Str(id.sessionId))
    && Get(m.value, "thread_id") == Some(Str(id.threadId))
    && Get(m.value, "turn_id") == Some(Str(id.turnId))
    && Get(m.value, "window_id") == Some(Str(id.windowId))
    && Get(m.value, "turn_started_at_unix_ms") == Some(Num(id.turnStartedAtUnixMs))
  }

  const TURN_KEYS := ["installation_id", "session_id", "thread_id", "turn_id", "window_id", "turn_started_at_unix_ms"]

  /** Every id lands in the text, and whatever else the incoming object held is still there. */
  lemma MergedTurnCarries(codec: Codec, raw: Option<Json>, id: Identity)
    requires Lawful(codec) && Complete(id)
    ensures TurnCarries(codec, Some(Str(MergeTurnMetadata(codec, raw, id, true))), id)
    ensures forall key :: ParsedMetadata(codec, raw).Some? && key !in TURN_KEYS ==>
              Get(MergedTurn(codec, raw, id, true), key) == Get(ParsedMetadata(codec, raw).value, key)
  {
    MergeReadsBack(codec, raw, id, true);
    TurnUpdatesAreDistinct(id, true);
    var us := TurnUpdates(id, true);
    assert forall i :: 0 <= i < |us| ==> us[i].0 == TURN_KEYS[i];
    var parsed := ParsedMetadata(codec, raw);
    var base := if parsed.Some? then parsed.value else [("thread_source", Str("user")), ("sandbox", Str("none"))];
    forall i | 0 <= i < |us|
      ensures Get(MergedTurn(codec, raw, id, true), us[i].0) == Some(us[i].1)
    {
      GetAfterSetFirst(base, us, |us|, us[i].0);
    }
    assert us[0].0 == "installation_id" && us[1].0 == "session_id" && us[2].0 == "thread_id" && us[3].0 == "turn_id" && us[4].0 == "window_id";
    assert us[5].0 == "turn_started_at_unix_ms";
    forall key | parsed.Some? && key !in TURN_KEYS
      ensures Get(MergedTurn(codec, raw, id, true), key) == Get(base, key)
    {
      GetAfterSetFirst(base, us, |us|, key);
    }
  }

  // ----- the same, from text to text -----

  /** A turn-metadata value that reads as an object. */
  ghost predicate ReadsAs(codec: Codec, raw: Option<Json>, o: Object<Json>) {
    raw.Some? && raw.value.Str? && !AllSpaces(raw.value.s) && codec.parse(raw.value.s) == Some(Obj(o))
  }

  predicate TurnKey(key: string, full: bool) {
    || key == "installation_id"
    || (full && key in ["session_id", "thread_id", "turn_id", "window_id", "turn_started_at_unix_ms"])
  }

  predicate TurnWritten(f: Object<Json>, id: Identity, full: bool) {
    && Get(f, "installation_id") == Some(Str(id.installationId))
    && (full ==>
          && Get(f, "session_id") == Some(Str(id.sessionId))
          && Get(f, "thread_id") == Some(Str(if id.threadId == "" then id.sessionId else id.threadId))
          && Get(f, "turn_id") == Some(Str(id.turnId))
          && Get(f, "window_id") == Some(Str(id.windowId))
          && Get(f, "turn_started_at_unix_ms") == Some(Num(id.turnStartedAtUnixMs)))
  }

  ghost predicate TurnKept(f: Object<Json>, o: Object<Json>, full: bool) {
    forall key :: !TurnKey(key, full) ==> Get(f, key) == Get(o, key)
  }

  /** `text` spells the ids over the incoming object; over the two defaults, or nothing, when there is none. */
  ghost predicate TurnRewritten(codec: Codec, raw: Option<Json>, text: string, id: Identity, full: bool) {
    exists f :: && codec.parse(text) == Some(Obj(f)) && TurnWritten(f, id, full)
                && (forall o :: ReadsAs(codec, raw, o) ==> TurnKept(f, o, full))
                && ((forall o :: !ReadsAs(codec, raw, o)) ==>
                      TurnKept(f, if full then [("thread_source", Str("user")), ("sandbox", Str("none"))] else [], full))
  }

  lemma TurnKeysAre(id: Identity, full: bool, key: string)
    ensures TurnKey(key, full) <==> exists i :: 0 <= i < |TurnUpdates(id, full)| && TurnUpdates(id, full)[i].0 == key
  {
    var us := TurnUpdates(id, full);
    assert us[0].0 == "installation_id";
    if full {
      assert us[1].0 == "session_id" && us[2].0 == "thread_id" && us[3].0 == "turn_id" && us[4].0 == "window_id";
      assert us[5].0 == "turn_started_at_unix_ms";
    }
  }

  lemma UpdatesOver(base: Object<Json>, id: Identity, full: bool)
    ensures TurnWritten(SetAll(base, TurnUpdates(id, full)), id, full)
    ensures TurnKept(SetAll(base, TurnUpdates(id, full)), base, full)
  {
    var us := TurnUpdates(id, full);
    var f := SetAll(base, us);
    TurnUpdatesAreDistinct(id, full);
    forall i | 0 <= i < |us|
      ensures Get(f, us[i].0) == Some(us[i].1)
    {
      GetAfterSetFirst(base, us, |us|, us[i].0);
    }
    assert us[0] == ("installation_id", Str(id.installationId));
    if full {
      assert us[1].0 == "session_id" && us[2].0 == "thread_id" && us[3].0 == "turn_id" && us[4].0 == "window_id";
      assert us[5].0 == "turn_started_at_unix_ms";
    }
    forall key | !TurnKey(key, full)
      ensures Get(f, key) == Get(base, key)
    {
      TurnKeysAre(id, full, key);
      GetAfterSetFirst(base, us, |us|, key);
    }
  }

  lemma ReadingIsParsing(codec: Codec, raw: Option<Json>, o: Object<Json>)
    ensures ReadsAs(codec, raw, o) <==> ParsedMetadata(codec, raw) == Some(o)
  {
    if raw.Some? && raw.value.Str? {
      BlankIsAllSpaces(raw.value.s);
    }
  }

  /** Whatever comes in, the text that goes out parses to the ids over it. */
  lemma MergedTextIs(codec: Codec, raw: Option<Json>, id: Identity, full: bool)
    requires Lawful(codec)
    ensures TurnRewritten(codec, raw, MergeTurnMetadata(codec, raw, id, full), id, full)
  {
    MergedTurnIsProper(codec, raw, id, full);
    var f, parsed := MergedTurn(codec, raw, id, full), ParsedMetadata(codec, raw);
    var base := TurnBase(parsed, full);
    UpdatesOver(base, id, full);
    forall o
      ensures ReadsAs(codec, raw, o) <==> parsed == Some(o)
    {
      ReadingIsParsing(codec, raw, o);
    }
    assert codec.parse(MergeTurnMetadata(codec, raw, id, full)) == Some(Obj(f));
  }

  // ----- headers -----

  function HeaderUpdates(id: Identity): Object<string> {
    [
      ("x-codex-installation-id", id.installationId),
      ("session-id", id.sessionId),
      ("session_id", id.sessionId),
      ("thread-id", SharedThread(id)),
      ("x-client-request-id", SharedThread(id)),
      ("x-codex-window-id", id.windowId)
    ]
  }

  const HEADER_KEYS := ["x-codex-installation-id", "session-id", "session_id", "thread-id", "x-client-request-id", "x-codex-window-id"]

  function AsText(value: Option<string>): Option<Json> {
    if value.Some? then Some(Str(value.value)) else None
  }

  function IdentityHeaders(codec: Codec, headers: Object<string>, id: Identity): Object<string> {
    if id.mode == Device then
      var marked := Set(headers, "x-codex-installation-id", id.installationId);
      var turn := Get(marked, TURN_METADATA);
      if turn.None? then marked else Set(marked, TURN_METADATA, MergeTurnMetadata(codec, AsText(turn), id, false))
    else
      var marked := SetAll(headers, HeaderUpdates(id));
      Set(marked, TURN_METADATA, MergeTurnMetadata(codec, AsText(Get(marked, TURN_METADATA)), id, true))
  }

  class HeaderBag {
    var fields: Object<string>

    constructor (fields: Object<string>)
      ensures this.fields == fields
    {
      this.fields := fields;
    }

    method ApplyIdentity(codec: Codec, identity: Option<Identity>)
      modifies this
      ensures identity.None? ==> fields == old(fields)
      ensures identity.Some? ==> fields == IdentityHeaders(codec, old(fields), identity.value)
    {
      if identity.None? {
        return;
      }
      var id := identity.value;
      ghost var was, us := fields, HeaderUpdates(id);
      fields := Set(fields, "x-codex-installation-id", id.installationId);
      assert fields == SetFirst(was, us, 1);
      if id.mode == Device {
        var turn := Get(fields, TURN_METADATA);
        if turn.Some? {
          fields := Set(fields, TURN_METADATA, MergeTurnMetadata(codec, AsText(turn), id, false));
        }
        return;
      }
      fields := Set(fields, "session-id", id.sessionId);
      assert fields == SetFirst(was, us, 2);
      fields := Set(fields, "session_id", id.sessionId);
      assert fields == SetFirst(was, us, 3);
      fields := Set(fields, "thread-id", SharedThread(id));
      assert fields == SetFirst(was, us, 4);
      fields := Set(fields, "x-client-request-id", SharedThread(id));
      assert fields == SetFirst(was, us, 5);
      fields := Set(fields, "x-codex-window-id", id.windowId);
      assert fields == SetFirst(was, us, 6);
      fields := Set(fields, TURN_METADATA, MergeTurnMetadata(codec, AsText(Get(fields, TURN_METADATA)), id, true));
    }
  }

  ghost predicate HeadersCarry(codec: Codec, headers: Object<string>, id: Identity) {
    && Get(headers, "x-codex-installation-id") == Some(id.installationId)
    && Get(headers, "session-id") == Some(id.sessionId)
    && Get(headers, "session_id") == Some(id.sessionId)
    && Get(headers, "thread-id") == Some(id.threadId)
    && Get(headers, "x-client-request-id") == Some(id.threadId)
    && Get(headers, "x-codex-window-id") == Some(id.windowId)
    && TurnCarries(codec, AsText(Get(headers, TURN_METADATA)), id)
  }

  lemma HeaderUpdatesRead(headers: Object<string>, id: Identity, key: string)
    ensures UniqueKeys(HeaderUpdates(id))
    ensures key !in HEADER_KEYS ==> Get(SetAll(headers, HeaderUpdates(id)), key) == Get(headers, key)
    ensures forall i :: 0 <= i < |HEADER_KEYS| && HEADER_KEYS[i] == key ==>
              Get(SetAll(headers, HeaderUpdates(id)), key) == Some(HeaderUpdates(id)[i].1)
  {
    var us := HeaderUpdates(id);
    assert forall i :: 0 <= i < |us| ==> us[i].0 == HEADER_KEYS[i];
    GetAfterSetFirst(headers, us, |us|, key);
  }

  /** Whatever came in, every header carries the identity and every other header is as it was. */
  lemma HeadersCarryTheIdentity(codec: Codec, headers: Object<string>, id: Identity)
    requires Lawful(codec) && Complete(id)
    ensures HeadersCarry(codec, IdentityHeaders(codec, headers, id), id)
    ensures forall key :: key !in HEADER_KEYS && key != TURN_METADATA ==>
              Get(IdentityHeaders(codec, headers, id), key) == Get(headers, key)
  {
    var marked := SetAll(headers, HeaderUpdates(id));
    var text := MergeTurnMetadata(codec, AsText(Get(marked, TURN_METADATA)), id, true);
    forall key
      ensures Get(IdentityHeaders(codec, headers, id), key) == if key == TURN_METADATA then Some(text) else Get(marked, key)
      ensures key !in HEADER_KEYS ==> Get(marked, key) == Get(headers, key)
    {
      GetAfterSet(marked, TURN_METADATA, text, key);
      HeaderUpdatesRead(headers, id, key);
    }
    HeaderUpdatesRead(headers, id, HEADER_KEYS[0]);
    HeaderUpdatesRead(headers, id, HEADER_KEYS[1]);
    HeaderUpdatesRead(headers, id, HEADER_KEYS[2]);
    HeaderUpdatesRead(headers, id, HEADER_KEYS[3]);
    HeaderUpdatesRead(headers, id, HEADER_KEYS[4]);
    HeaderUpdatesRead(headers, id, HEADER_KEYS[5]);
    MergedTurnCarries(codec, AsText(Get(marked, TURN_METADATA)), id);
  }

  lemma DeviceHeadersApplyTwice(codec: Codec, headers: Object<string>, id: Identity)
    requires Lawful(codec) && id.mode == Device
    ensures IdentityHeaders(codec, IdentityHeaders(codec, headers, id), id) == IdentityHeaders(codec, headers, id)
  {
    var once := IdentityHeaders(codec, headers, id);
    var marked := Set(headers, "x-codex-installation-id", id.installationId);
    var turn := AsText(Get(marked, TURN_METADATA));
    GetAfterSet(headers, "x-codex-installation-id", id.installationId, "x-codex-installation-id");
    if turn.Some? {
      var text := MergeTurnMetadata(codec, turn, id, false);
      GetAfterSet(marked, TURN_METADATA, text, "x-codex-installation-id");
      GetAfterSet(marked, TURN_METADATA, text, TURN_METADATA);
      MergeReadsBack(codec, turn, id, false);
      SetSame(once, TURN_METADATA, text);
    }
    SetSame(once, "x-codex-installation-id", id.installationId);
  }

  /** Applying any identity twice is applying it once, down to header order and text. */
  lemma HeadersApplyTwice(codec: Codec, headers: Object<string>, id: Identity)
    requires Lawful(codec)
    ensures IdentityHeaders(codec, IdentityHeaders(codec, headers, id), id) == IdentityHeaders(codec, headers, id)
  {
    if id.mode == Device {
      DeviceHeadersApplyTwice(codec, headers, id);
    } else {
      ConvergedHeadersApplyTwice(codec, headers, id);
    }
  }

  lemma ConvergedHeadersApplyTwice(codec: Codec, headers: Object<string>, id: Identity)
    requires Lawful(codec) && id.mode != Device
    ensures IdentityHeaders(codec, IdentityHeaders(codec, headers, id), id) == IdentityHeaders(codec, headers, id)
  {
    var us := HeaderUpdates(id);
    var marked := SetAll(headers, us);
    var text := MergeTurnMetadata(codec, AsText(Get(marked, TURN_METADATA)), id, true);
    var once := IdentityHeaders(codec, headers, id);
    forall i | 0 <= i < |us|
      ensures Get(once, us[i].0) == Some(us[i].1)
    {
      assert us[i].0 == HEADER_KEYS[i];
      HeaderUpdatesRead(headers, id, us[i].0);
      GetAfterSet(marked, TURN_METADATA, text, us[i].0);
    }
    SetFirstSame(once, us, |us|);
    GetAfterSet(marked, TURN_METADATA, text, TURN_METADATA);
    MergeReadsBack(codec, AsText(Get(marked, TURN_METADATA)), id, true);
    SetSame(once, TURN_METADATA, text);
  }

  /** What the identity says a header of that folded name holds. */
  ghost predicate SpeaksFor(codec: Codec, id: Identity, name: string, value: string) {
    if name == "x-codex-installation-id" then value == id.installationId
    else if name == "session-id" || name == "session_id" then value == id.sessionId
    else if name == "x-codex-window-id" then value == id.windowId
    else if name == TURN_METADATA then TurnCarries(codec, Some(Str(value)), id)
    else value == id.threadId
  }

  ghost predicate Agrees(codec: Codec, headers: Object<string>, id: Identity, key: string) {
    Lower(key) in IDENTITY_HEADER_NAMES && Get(headers, key).Some? ==> SpeaksFor(codec, id, Lower(key), Get(headers, key).value)
  }

  predicate Written(key: string) {
    key in HEADER_KEYS || key == TURN_METADATA
  }

  lemma WrittenNamesAreLower(key: string)
    requires Written(key)
    ensures Lower(key) == key && key in IDENTITY_HEADER_NAMES
  {
    assert forall i :: 0 <= i < |key| ==> LowerChar(key[i]) == key[i];
  }

  lemma WrittenAgrees(codec: Codec, headers: Object<string>, id: Identity, key: string)
    requires HeadersCarry(codec, headers, id) && Written(key)
    ensures Agrees(codec, headers, id, key)
  {
    WrittenNamesAreLower(key);
  }

  /** After the rewrite every identity header, however it is spelled, agrees with the identity exactly when those the writer does not reach agreed before. */
  lemma AllSpellingsAgree(codec: Codec, headers: Object<string>, id: Identity)
    requires Lawful(codec) && Complete(id)
    ensures (forall key :: Agrees(codec, IdentityHeaders(codec, headers, id), id, key)) <==>
            forall key :: !Written(key) ==> Agrees(codec, headers, id, key)
  {
    HeadersCarryTheIdentity(codec, headers, id);
    var after := IdentityHeaders(codec, headers, id);
    forall key
      ensures if Written(key) then Agrees(codec, after, id, key) else Agrees(codec, after, id, key) == Agrees(codec, headers, id, key)
    {
      if Written(key) {
        WrittenAgrees(codec, after, id, key);
      } else {
        assert Get(after, key) == Get(headers, key);
      }
    }
  }

  lemma SessionIdWithCapitals()
    ensures Lower("Session-Id") == "session-id" && !Written("Session-Id")
  {
    assert "Session-Id"[0] == 'S';
    assert forall i :: 0 <= i < |HEADER_KEYS| ==> HEADER_KEYS[i][0] != 'S';
  }

  /** A client's own `Session-Id` goes out beside the rewritten `session-id`. */
  lemma CaseVariantKeepsTheClientsId(codec: Codec, id: Identity)
    requires Lawful(codec) && Complete(id)
    ensures exists key :: !Agrees(codec, IdentityHeaders(codec, [("Session-Id", "mine")], id), id, key)
  {
    var headers, key := [("Session-Id", "mine")], "Session-Id";
    AllSpellingsAgree(codec, headers, id);
    SessionIdWithCapitals();
    assert Get(headers, key) == Some("mine");
    assert SpeaksFor(codec, id, "session-id", "mine") <==> id.sessionId == "mine";
    assert |id.sessionId| == 36;
    assert !Agrees(codec, headers, id, key);
  }

  /** Device mode marks the installation and nothing else: other headers, and the client's own ids inside its turn metadata, stay. */
  lemma DeviceModeMarksOnlyTheInstallation(codec: Codec, headers: Object<string>, id: Identity, key: string)
    requires Lawful(codec) && id.mode == Device
    ensures var after := IdentityHeaders(codec, headers, id);
            && Get(after, "x-codex-installation-id") == Some(id.installationId)
            && (key != "x-codex-installation-id" && key != TURN_METADATA ==> Get(after, key) == Get(headers, key))
            && (Get(after, TURN_METADATA).Some? <==> Get(headers, TURN_METADATA).Some?)
    ensures var turn := ParsedMetadata(codec, AsText(Get(headers, TURN_METADATA)));
            turn.Some? && key != "installation_id" ==>
              var rewritten := ParsedMetadata(codec, AsText(Get(IdentityHeaders(codec, headers, id), TURN_METADATA)));
              rewritten.Some? && Get(rewritten.value, key) == Get(turn.value, key)
  {
    var marked := Set(headers, "x-codex-installation-id", id.installationId);
    GetAfterSet(headers, "x-codex-installation-id", id.installationId, key);
    GetAfterSet(headers, "x-codex-installation-id", id.installationId, "x-codex-installation-id");
    GetAfterSet(headers, "x-codex-installation-id", id.installationId, TURN_METADATA);
    var turn := AsText(Get(marked, TURN_METADATA));
    if turn.Some? {
      var text := MergeTurnMetadata(codec, turn, id, false);
      GetAfterSet(marked, TURN_METADATA, text, key);
      GetAfterSet(marked, TURN_METADATA, text, "x-codex-installation-id");
      GetAfterSet(marked, TURN_METADATA, text, TURN_METADATA);
      MergeReadsBack(codec, turn, id, false);
      TurnUpdatesAreDistinct(id, false);
      if ParsedMetadata(codec, turn).Some? {
        GetAfterSetFirst(ParsedMetadata(codec, turn).value, TurnUpdates(id, false), |TurnUpdates(id, false)|, key);
      }
    }
  }

  /** The turn metadata in the headers is rewritten from what the client sent; device mode makes none of its own. */
  lemma HeadersRewriteTheTurn(codec: Codec, headers: Object<string>, id: Identity)
    requires Lawful(codec)
    ensures var sent, turn := Get(headers, "x-codex-turn-metadata"), Get(IdentityHeaders(codec, headers, id), "x-codex-turn-metadata");
            if id.mode == Device && sent.None? then turn.None?
            else turn.Some? && TurnRewritten(codec, AsText(sent), turn.value, id, id.mode != Device)
  {
    var sent := AsText(Get(headers, TURN_METADATA));
    var full := id.mode != Device;
    var marked := if full then SetAll(headers, HeaderUpdates(id)) else Set(headers, "x-codex-installation-id", id.installationId);
    if full {
      HeaderUpdatesRead(headers, id, TURN_METADATA);
    } else {
      GetAfterSet(headers, "x-codex-installation-id", id.installationId, TURN_METADATA);
    }
    assert Get(marked, TURN_METADATA) == Get(headers, TURN_METADATA);
    GetAfterSet(marked, TURN_METADATA, MergeTurnMetadata(codec, sent, id, full), TURN_METADATA);
    MergedTextIs(codec, sent, id, full);
  }

  // ----- body -----

  function MetadataUpdates(id: Identity): Object<Json> {
    [("x-codex-installation-id", Str(id.installationId))]
    + if id.mode == Device then [] else [
        ("session_id", Str(id.sessionId)),
        ("thread_id", Str(SharedThread(id))),
        ("turn_id", Str(id.turnId)),
        ("x-codex-window-id", Str(id.windowId))
      ]
  }

  const METADATA_KEYS := ["x-codex-installation-id", "session_id", "thread_id", "turn_id", "x-codex-window-id"]

  function FieldsOf(value: Option<Json>): Object<Json> {
    if value.Some? && value.value.Obj? then value.value.fields else []
  }

  function IdentityMetadata(codec: Codec, existing: Object<Json>, id: Identity): Object<Json> {
    var marked := SetAll(existing, MetadataUpdates(id));
    var turn := Get(marked, TURN_METADATA);
    if turn.None? then marked
    else Set(marked, TURN_METADATA, Str(MergeTurnMetadata(codec, turn, id, id.mode != Device)))
  }

  function IdentityBody(codec: Codec, body: Object<Json>, id: Identity): Object<Json> {
    Set(body, "client_metadata", Obj(IdentityMetadata(codec, FieldsOf(Get(body, "client_metadata")), id)))
  }

  class RequestBody {
    var fields: Object<Json>

    constructor (fields: Object<Json>)
      ensures this.fields == fields
    {
      this.fields := fields;
    }

    method ApplyClientMetadata(codec: Codec, identity: Option<Identity>)
      modifies this
      ensures identity.None? ==> fields == old(fields)
      ensures identity.Some? ==> fields == IdentityBody(codec, old(fields), identity.value)
    {
      if identity.None? {
        return;
      }
      var id := identity.value;
      var existing := FieldsOf(Get(fields, "client_metadata"));
      ghost var was, us := existing, MetadataUpdates(id);
      existing := Set(existing, "x-codex-installation-id", Str(id.installationId));
      assert existing == SetFirst(was, us, 1);
      if id.mode != Device {
        existing := Set(existing, "session_id", Str(id.sessionId));
        assert existing == SetFirst(was, us, 2);
        existing := Set(existing, "thread_id", Str(SharedThread(id)));
        assert existing == SetFirst(was, us, 3);
        existing := Set(existing, "turn_id", Str(id.turnId));
        assert existing == SetFirst(was, us, 4);
        existing := Set(existing, "x-codex-window-id", Str(id.windowId));
        assert existing == SetFirst(was, us, 5);
      }
      var turn := Get(existing, TURN_METADATA);
      if turn.Some? {
        existing := Set(existing, TURN_METADATA, Str(MergeTurnMetadata(codec, turn, id, id.mode != Device)));
      }
      fields := Set(fields, "client_metadata", Obj(existing));
    }
  }

  ghost predicate MetadataCarries(codec: Codec, metadata: Object<Json>, id: Identity) {
    && Get(metadata, "x-codex-installation-id") == Some(Str(id.installationId))
    && Get(metadata, "session_id") == Some(Str(id.sessionId))
    && Get(metadata, "thread_id") == Some(Str(id.threadId))
    && Get(metadata, "turn_id") == Some(Str(id.turnId))
    && Get(metadata, "x-codex-window-id") == Some(Str(id.windowId))
    && (Get(metadata, TURN_METADATA).Some? ==> TurnCarries(codec, Get(metadata, TURN_METADATA), id))
  }

  lemma MetadataUpdatesRead(existing: Object<Json>, id: Identity, key: string)
    ensures UniqueKeys(MetadataUpdates(id)) && KeysOf(MetadataUpdates(id)) == METADATA_KEYS[..|MetadataUpdates(id)|]
    ensures key !in KeysOf(MetadataUpdates(id)) ==> Get(SetAll(existing, MetadataUpdates(id)), key) == Get(existing, key)
    ensures forall i :: 0 <= i < |MetadataUpdates(id)| && METADATA_KEYS[i] == key ==>
              Get(SetAll(existing, MetadataUpdates(id)), key) == Some(MetadataUpdates(id)[i].1)
  {
    var us := MetadataUpdates(id);
    assert forall i :: 0 <= i < |us| ==> us[i].0 == METADATA_KEYS[i];
    assert forall i :: 0 <= i < |us| ==> KeysOf(us)[i] == us[i].0;
    GetAfterSetFirst(existing, us, |us|, key);
  }

  /** Every key of the new client_metadata: what the mode writes, the rewritten turn metadata, or what was there. */
  lemma MetadataReads(codec: Codec, existing: Object<Json>, id: Identity)
    ensures var m := IdentityMetadata(codec, existing, id);
            && (forall i :: 0 <= i < |MetadataUpdates(id)| ==> Get(m, METADATA_KEYS[i]) == Some(MetadataUpdates(id)[i].1))
            && (forall key :: key !in KeysOf(MetadataUpdates(id)) && key != TURN_METADATA ==> Get(m, key) == Get(existing, key))
            && (Get(m, TURN_METADATA)
                == if Get(existing, TURN_METADATA).None? then None
                   else Some(Str(MergeTurnMetadata(codec, Get(existing, TURN_METADATA), id, id.mode != Device))))
  {
    var us := MetadataUpdates(id);
    var marked := SetAll(existing, us);
    var turn := Get(marked, TURN_METADATA);
    var m := IdentityMetadata(codec, existing, id);
    MetadataUpdatesRead(existing, id, TURN_METADATA);
    forall key
      ensures key != TURN_METADATA ==> Get(m, key) == Get(marked, key)
      ensures key !in KeysOf(us) ==> Get(marked, key) == Get(existing, key)
    {
      if turn.Some? {
        GetAfterSet(marked, TURN_METADATA, Str(MergeTurnMetadata(codec, turn, id, id.mode != Device)), key);
      }
      MetadataUpdatesRead(existing, id, key);
    }
    forall i | 0 <= i < |us|
      ensures Get(m, METADATA_KEYS[i]) == Some(us[i].1)
    {
      MetadataUpdatesRead(existing, id, METADATA_KEYS[i]);
    }
    if turn.Some? {
      GetAfterSet(marked, TURN_METADATA, Str(MergeTurnMetadata(codec, turn, id, id.mode != Device)), TURN_METADATA);
    }
  }

  /** The new client_metadata carries the ids, has turn metadata exactly when there was some, and keeps every key its mode does not write. */
  lemma MetadataCarriesTheIdentity(codec: Codec, existing: Object<Json>, id: Identity)
    requires Lawful(codec)
    ensures var m := IdentityMetadata(codec, existing, id);
            && (Complete(id) ==> MetadataCarries(codec, m, id))
            && Get(m, "x-codex-installation-id") == Some(Str(id.installationId))
            && (Get(m, TURN_METADATA).Some? <==> Get(existing, TURN_METADATA).Some?)
            && (forall key :: key !in KeysOf(MetadataUpdates(id)) && key != TURN_METADATA ==> Get(m, key) == Get(existing, key))
  {
    MetadataReads(codec, existing, id);
    var m := IdentityMetadata(codec, existing, id);
    assert Get(m, METADATA_KEYS[0]) == Some(MetadataUpdates(id)[0].1);
    if Complete(id) {
      assert Get(m, METADATA_KEYS[1]) == Some(MetadataUpdates(id)[1].1);
      assert Get(m, METADATA_KEYS[2]) == Some(MetadataUpdates(id)[2].1);
      assert Get(m, METADATA_KEYS[3]) == Some(MetadataUpdates(id)[3].1);
      assert Get(m, METADATA_KEYS[4]) == Some(MetadataUpdates(id)[4].1);
      if Get(existing, TURN_METADATA).Some? {
        MergedTurnCarries(codec, Get(existing, TURN_METADATA), id);
      }
    }
  }

  lemma MetadataAppliesTwice(codec: Codec, existing: Object<Json>, id: Identity)
    requires Lawful(codec)
    ensures IdentityMetadata(codec, IdentityMetadata(codec, existing, id), id) == IdentityMetadata(codec, existing, id)
  {
    var us := MetadataUpdates(id);
    var once := IdentityMetadata(codec, existing, id);
    MetadataReads(codec, existing, id);
    MetadataUpdatesRead(existing, id, TURN_METADATA);
    assert forall i :: 0 <= i < |us| ==> us[i].0 == KeysOf(us)[i] == METADATA_KEYS[i];
    SetFirstSame(once, us, |us|);
    if Get(existing, TURN_METADATA).Some? {
      MergeReadsBack(codec, Get(existing, TURN_METADATA), id, id.mode != Device);
      SetSame(once, TURN_METADATA, Get(once, TURN_METADATA).value);
    }
  }

  predicate NonBlankString(value: Option<Json>) {
    value.Some? && value.value.Str? && Trim(value.value.s) != ""
  }

  predicate BoundTurn(codec: Codec, raw: Option<Json>) {
    var turn := if raw.Some? && raw.value.Str? then FieldsOf(codec.parse(raw.value.s)) else FieldsOf(raw);
    NonBlankString(Get(turn, "thread_id")) && NonBlankString(Get(turn, "turn_id"))
  }

  /** `hasNativeCodexTurnBinding`: a non-blank thread and turn id in the nested turn metadata. */
  predicate HasNativeTurnBinding(codec: Codec, body: Object<Json>) {
    BoundTurn(codec, Get(FieldsOf(Get(body, "client_metadata")), TURN_METADATA))
  }

  lemma CarriedTurnIsBound(codec: Codec, raw: Option<Json>, id: Identity)
    requires TurnCarries(codec, raw, id) && Complete(id)
    ensures BoundTurn(codec, raw)
  {
    UuidIsTrimmed(id.threadId);
    UuidIsTrimmed(id.turnId);
  }

  lemma BodyReads(codec: Codec, body: Object<Json>, id: Identity, key: string)
    ensures Get(IdentityBody(codec, body, id), key)
         == if key == "client_metadata" then Some(Obj(IdentityMetadata(codec, FieldsOf(Get(body, "client_metadata")), id)))
            else Get(body, key)
  {
    GetAfterSet(body, "client_metadata", Obj(IdentityMetadata(codec, FieldsOf(Get(body, "client_metadata")), id)), key);
  }

  /** For any identity, the rewritten body carries what it holds, keeps every other field, and is not changed by a second application. */
  lemma BodyCarriesTheIdentity(codec: Codec, body: Object<Json>, id: Identity)
    requires Lawful(codec)
    ensures Complete(id) ==> MetadataCarries(codec, FieldsOf(Get(IdentityBody(codec, body, id), "client_metadata")), id)
    ensures forall key :: key != "client_metadata" ==> Get(IdentityBody(codec, body, id), key) == Get(body, key)
    ensures IdentityBody(codec, IdentityBody(codec, body, id), id) == IdentityBody(codec, body, id)
  {
    var existing := FieldsOf(Get(body, "client_metadata"));
    forall key
      ensures key != "client_metadata" ==> Get(IdentityBody(codec, body, id), key) == Get(body, key)
    {
      BodyReads(codec, body, id, key);
    }
    BodyReads(codec, body, id, "client_metadata");
    MetadataCarriesTheIdentity(codec, existing, id);
    MetadataAppliesTwice(codec, existing, id);
    SetSame(IdentityBody(codec, body, id), "client_metadata", Obj(IdentityMetadata(codec, existing, id)));
  }

  predicate MetadataKey(key: string, mode: Mode) {
    || key == "x-codex-installation-id"
    || (mode != Device && key in ["session_id", "thread_id", "turn_id", "x-codex-window-id"])
  }

  /** `m` is the client_metadata `o` with the ids over it and its turn metadata, if any, rewritten. */
  ghost predicate MetadataRewritten(codec: Codec, o: Object<Json>, m: Object<Json>, id: Identity) {
    var sent, turn := Get(o, "x-codex-turn-metadata"), Get(m, "x-codex-turn-metadata");
    && Get(m, "x-codex-installation-id") == Some(Str(id.installationId))
    && (id.mode != Device ==>
          && Get(m, "session_id") == Some(Str(id.sessionId))
          && Get(m, "thread_id") == Some(Str(if id.threadId == "" then id.sessionId else id.threadId))
          && Get(m, "turn_id") == Some(Str(id.turnId))
          && Get(m, "x-codex-window-id") == Some(Str(id.windowId)))
    && (forall key :: key != "x-codex-turn-metadata" && !MetadataKey(key, id.mode) ==> Get(m, key) == Get(o, key))
    && (if sent.None? then turn.None?
        else turn.Some? && turn.value.Str? && TurnRewritten(codec, sent, turn.value.s, id, id.mode != Device))
  }

  lemma MetadataKeysAre(id: Identity, key: string)
    ensures key in KeysOf(MetadataUpdates(id)) <==> MetadataKey(key, id.mode)
  {
    var us := MetadataUpdates(id);
    assert KeysOf(us)[0] == "x-codex-installation-id";
    if id.mode != Device {
      assert KeysOf(us)[1] == "session_id" && KeysOf(us)[2] == "thread_id" && KeysOf(us)[3] == "turn_id" && KeysOf(us)[4] == "x-codex-window-id";
    }
  }

  lemma MetadataIsRewritten(codec: Codec, o: Object<Json>, id: Identity)
    requires Lawful(codec)
    ensures MetadataRewritten(codec, o, IdentityMetadata(codec, o, id), id)
  {
    MetadataReads(codec, o, id);
    var m := IdentityMetadata(codec, o, id);
    assert Get(m, METADATA_KEYS[0]) == Some(MetadataUpdates(id)[0].1);
    if id.mode != Device {
      assert Get(m, METADATA_KEYS[1]) == Some(MetadataUpdates(id)[1].1);
      assert Get(m, METADATA_KEYS[2]) == Some(MetadataUpdates(id)[2].1);
      assert Get(m, METADATA_KEYS[3]) == Some(MetadataUpdates(id)[3].1);
      assert Get(m, METADATA_KEYS[4]) == Some(MetadataUpdates(id)[4].1);
    }
    forall key | key != "x-codex-turn-metadata" && !MetadataKey(key, id.mode)
      ensures Get(m, key) == Get(o, key)
    {
      MetadataKeysAre(id, key);
    }
    MergedTextIs(codec, Get(o, TURN_METADATA), id, id.mode != Device);
  }

  /** The body's client_metadata is the incoming object rewritten; anything but an object counts as an empty one. */
  lemma BodyIsRewritten(codec: Codec, body: Object<Json>, id: Identity)
    requires Lawful(codec)
    ensures exists m :: && Get(IdentityBody(codec, body, id), "client_metadata") == Some(Obj(m))
                        && (forall o :: Get(body, "client_metadata") == Some(Obj(o)) ==> MetadataRewritten(codec, o, m, id))
                        && ((forall o :: Get(body, "client_metadata") != Some(Obj(o))) ==> MetadataRewritten(codec, [], m, id))
  {
    var existing := FieldsOf(Get(body, "client_metadata"));
    BodyReads(codec, body, id, "client_metadata");
    MetadataIsRewritten(codec, existing, id);
    assert Get(body, "client_metadata").Some? && Get(body, "client_metadata").value.Obj? ==>
        Get(body, "client_metadata") == Some(Obj(existing));
  }

  /** The turn metadata a body holds, as an object or as text. */
  ghost predicate HoldsTurn(codec: Codec, body: Object<Json>, turn: Object<Json>) {
    exists meta :: Get(body, "client_metadata") == Some(Obj(meta))
                   && (Get(meta, "x-codex-turn-metadata") == Some(Obj(turn))
                       || exists text :: Get(meta, "x-codex-turn-metadata") == Some(Str(text)) && codec.parse(text) == Some(Obj(turn)))
  }

  ghost predicate HoldsText(o: Object<Json>, key: string) {
    exists text :: Get(o, key) == Some(Str(text)) && !AllSpaces(text)
  }

  lemma NonBlankIsText(o: Object<Json>, key: string)
    ensures NonBlankString(Get(o, key)) <==> HoldsText(o, key)
  {
    var value := Get(o, key);
    if value.Some? && value.value.Str? {
      BlankIsAllSpaces(value.value.s);
    }
  }

  /** A body is natively bound exactly when its turn metadata has a non-blank thread id and turn id. */
  lemma NativeBindingIs(codec: Codec, body: Object<Json>)
    ensures HasNativeTurnBinding(codec, body) <==>
            exists turn :: HoldsTurn(codec, body, turn) && HoldsText(turn, "thread_id") && HoldsText(turn, "turn_id")
  {
    var meta := FieldsOf(Get(body, "client_metadata"));
    var raw := Get(meta, "x-codex-turn-metadata");
    var turn := if raw.Some? && raw.value.Str? then FieldsOf(codec.parse(raw.value.s)) else FieldsOf(raw);
    NonBlankIsText(turn, "thread_id");
    NonBlankIsText(turn, "turn_id");
    forall t | HoldsTurn(codec, body, t)
      ensures t == turn
    {
    }
    if HasNativeTurnBinding(codec, body) {
      assert turn != [];
      assert HoldsTurn(codec, body, turn);
    }
  }

  /** A rewritten body passes the native-binding test exactly when turn metadata came in with it. */
  lemma RewrittenTurnIsNativelyBound(codec: Codec, body: Object<Json>, id: Identity)
    requires Lawful(codec) && Complete(id)
    ensures HasNativeTurnBinding(codec, IdentityBody(codec, body, id)) <==>
            Get(FieldsOf(Get(body, "client_metadata")), TURN_METADATA).Some?
  {
    BodyReads(codec, body, id, "client_metadata");
    var existing := FieldsOf(Get(body, "client_metadata"));
    var m := IdentityMetadata(codec, existing, id);
    MetadataCarriesTheIdentity(codec, existing, id);
    if Get(m, TURN_METADATA).Some? {
      CarriedTurnIsBound(codec, Get(m, TURN_METADATA), id);
    }
  }

  /** Without turn metadata the rewritten body is not bound. */
  lemma NoTurnMetadataIsUnbound(codec: Codec, id: Identity)
    requires Lawful(codec) && Complete(id)
    ensures !HasNativeTurnBinding(codec, IdentityBody(codec, [], id))
  {
    RewrittenTurnIsNativelyBound(codec, [], id);
  }

  /** After both writers have run, headers, body and both nested texts agree on every id they share. */
  lemma CarriersAgree(codec: Codec, headers: Object<string>, body: Object<Json>, id: Identity)
    requires Lawful(codec) && Complete(id)
    ensures var h := IdentityHeaders(codec, headers, id);
            var m := FieldsOf(Get(IdentityBody(codec, body, id), "client_metadata"));
            && AsText(Get(h, "x-codex-installation-id")) == Get(m, "x-codex-installation-id")
            && AsText(Get(h, "session-id")) == AsText(Get(h, "session_id")) == Get(m, "session_id")
            && AsText(Get(h, "thread-id")) == AsText(Get(h, "x-client-request-id")) == Get(m, "thread_id")
            && AsText(Get(h, "x-codex-window-id")) == Get(m, "x-codex-window-id")
            && TurnCarries(codec, AsText(Get(h, TURN_METADATA)), id)
            && (Get(m, TURN_METADATA).Some? ==> TurnCarries(codec, Get(m, TURN_METADATA), id))
  {
    HeadersCarryTheIdentity(codec, headers, id);
    BodyCarriesTheIdentity(codec, body, id);
  }
}

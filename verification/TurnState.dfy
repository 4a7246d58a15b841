/**
 The Codex turn-state provenance table: a map with a time-to-live, lazy expiry on
 read and a full sweep every 256 writes. It stands for the full history of the
 notes ever made; the lemmas say when forgetting shows and when it does not.
 */
module TurnState {
  import opened Prelude

  const TTL_MS := 2 * 60 * 60 * 1000
  const SWEEP_EVERY_WRITES := 256

  datatype Origin = Origin(accountKey: string, expiresAt: int)

  /** One call on the table. `session` and `account` are `None` when the caller's value is not a string. */
  datatype Event =
    | Note(session: Option<string>, account: Option<string>, now: int)
    | Check(session: Option<string>, account: Option<string>, now: int)
  {
    /** Calls with a blank session or account return before touching the table. */
    predicate Effective() {
      NonEmpty(session).Some? && NonEmpty(account).Some?
    }

    predicate Notes(sid: string) {
      Note? && Effective() && NonEmpty(session).value == sid
    }

    predicate Checks(sid: string) {
      Check? && Effective() && NonEmpty(session).value == sid
    }

    function Minted(): Origin
      requires Effective()
    {
      Origin(NonEmpty(account).value, now + TTL_MS)
    }
  }

  ghost function EffectiveWrites(h: seq<Event>): nat {
    if h == [] then 0
    else EffectiveWrites(h[..|h| - 1]) + if h[|h| - 1].Note? && h[|h| - 1].Effective() then 1 else 0
  }

  /** The call `e`, made after history `p`, runs the full sweep. */
  ghost predicate Sweeps(p: seq<Event>, e: Event) {
    e.Note? && e.Effective() && (EffectiveWrites(p) + 1) % SWEEP_EVERY_WRITES == 0
  }

  /** What an ever-growing history knows: the last note ever made for `sid`. */
  ghost function LastNote(h: seq<Event>, sid: string): Option<Origin> {
    if h == [] then None
    else
      var e := h[|h| - 1];
      if e.Notes(sid) then Some(e.Minted()) else LastNote(h[..|h| - 1], sid)
  }

  /** What the table still holds for `sid` after `h`: entries leave by a sweep or by a check of their own session. */
  ghost function Remembered(h: seq<Event>, sid: string): Option<Origin> {
    if h == [] then None
    else
      var p, e := h[..|h| - 1], h[|h| - 1];
      var held := Remembered(p, sid);
      if e.Notes(sid) then Some(e.Minted())
      else if (Sweeps(p, e) || e.Checks(sid)) && held.Some? && held.value.expiresAt <= e.now then None
      else held
  }

  /** The guard's verdict on an origin: minted by somebody else, and not expired. */
  ghost predicate Foreign(origin: Option<Origin>, account: string, now: int) {
    origin.Some? && now < origin.value.expiresAt && origin.value.accountKey != account
  }

  // ----- the table itself -----

  class TurnStateTable {
    var origins: map<string, Origin>
    var writes: nat
    ghost var history: seq<Event>

    ghost predicate Valid()
      reads this
    {
      Represents(origins, writes, history)
    }

    constructor ()
      ensures Valid() && history == []
    {
      origins, writes, history := map[], 0, [];
    }

    /** Deletes while iterating, as the JavaScript loop over the live map does. */
    method SweepExpired(now: int)
      modifies `origins
      ensures origins == map sid | sid in old(origins) && now < old(origins)[sid].expiresAt :: old(origins)[sid]
    {
      var todo := origins.Keys;
      while todo != {}
        invariant todo <= origins.Keys <= old(origins).Keys
        invariant forall sid :: sid in origins ==> origins[sid] == old(origins)[sid]
        invariant forall sid :: sid in old(origins) && sid !in todo ==> (sid in origins <==> now < old(origins)[sid].expiresAt)
        decreases |todo|
      {
        var key :| key in todo;
        todo := todo - {key};
        if origins[key].expiresAt <= now {
          origins := origins - {key};
        }
      }
    }

    method NoteProvenance(session: Option<string>, account: Option<string>, now: int)
      requires Valid()
      modifies this
      ensures Valid()
      ensures history == old(history) + [Note(session, account, now)]
    {
      ghost var e := Note(session, account, now);
      history := history + [e];
      var sid, key := NonEmpty(session), NonEmpty(account);
      if sid.None? || key.None? {
        IneffectiveCallKeeps(origins, writes, old(history), e);
        return;
      }
      assert e.Effective() && e.Minted() == Origin(key.value, now + TTL_MS);
      origins := origins[sid.value := Origin(key.value, now + TTL_MS)];
      writes := writes + 1;
      assert Sweeps(old(history), e) <==> writes % SWEEP_EVERY_WRITES == 0;
      if writes % SWEEP_EVERY_WRITES == 0 {
        SweepExpired(now);
      }
      NoteKeeps(old(origins), old(writes), old(history), e, origins);
    }

    /** True when the echoed blob is known to come from another account. */
    method IsCrossAccount(session: Option<string>, account: Option<string>, now: int) returns (foreign: bool)
      requires Valid()
      modifies this
      ensures Valid()
      ensures history == old(history) + [Check(session, account, now)]
      ensures foreign == Verdict(old(history), session, account, now)
    {
      ghost var e := Check(session, account, now);
      history := history + [e];
      var sid, key := NonEmpty(session), NonEmpty(account);
      if sid.None? || key.None? {
        IneffectiveCallKeeps(origins, writes, old(history), e);
        return false;
      }
      CheckKeeps(origins, writes, old(history), e);
      assert Lookup(origins, sid.value) == Remembered(old(history), sid.value);
      if sid.value !in origins {
        return false;
      }
      var origin := origins[sid.value];
      if origin.expiresAt <= now {
        origins := origins - {sid.value};
        return false;
      }
      return origin.accountKey != key.value;
    }

    /** The blob to forward upstream, if any: the client's own, unless known to be another account's. */
    method ResolveEcho(headers: Object<Option<string>>, account: Option<string>, now: int) returns (echo: Option<string>)
      requires Valid()
      modifies this
      ensures Valid()
      ensures echo.Some? ==> echo == ReadNamedHeader(headers, TURN_STATE_HEADER)
      ensures var sid := ClientSessionId(headers);
              echo.None? <==> (ReadNamedHeader(headers, TURN_STATE_HEADER).None?
                               || (sid.Some? && Verdict(old(history), sid, account, now)))
      ensures echo == Echo(old(history), headers, account, now)
      ensures StrippedAsHistorySays(old(history), headers, account, now, echo)
      ensures var sid := ClientSessionId(headers);
              history == old(history) + if ReadNamedHeader(headers, TURN_STATE_HEADER).Some? && sid.Some? then [Check(sid, account, now)] else []
    {
      EchoFollowsTheHistory(history, headers, account, now);
      var value := ReadNamedHeader(headers, TURN_STATE_HEADER);
      if value.None? {
        return None;
      }
      var sid := ClientSessionId(headers);
      if sid.Some? {
        var foreign := IsCrossAccount(sid, account, now);
        if foreign {
          return None;
        }
      }
      return value;
    }
  }

  /** The map and the counter are what `Remembered` and `EffectiveWrites` say of the history. */
  ghost predicate Represents(origins: map<string, Origin>, writes: nat, h: seq<Event>) {
    writes == EffectiveWrites(h) && forall sid :: Lookup(origins, sid) == Remembered(h, sid)
  }

  lemma {:induction false} IneffectiveCallKeeps(origins: map<string, Origin>, writes: nat, h: seq<Event>, e: Event)
    requires Represents(origins, writes, h) && !e.Effective()
    ensures Represents(origins, writes, h + [e])
  {
    assert (h + [e])[..|h|] == h;
  }

  /** Setting the entry, then sweeping when a sweep is due. */
  lemma {:induction false} NoteKeeps(origins: map<string, Origin>, writes: nat, h: seq<Event>, e: Event, after: map<string, Origin>)
    requires Represents(origins, writes, h)
    requires e.Note? && e.Effective()
    requires var noted := origins[NonEmpty(e.session).value := e.Minted()];
             after == if Sweeps(h, e) then map sid | sid in noted && e.now < noted[sid].expiresAt :: noted[sid] else noted
    ensures Represents(after, writes + 1, h + [e])
  {
    assert (h + [e])[..|h|] == h;
    forall sid
      ensures Lookup(after, sid) == Remembered(h + [e], sid)
    {
      assert Lookup(origins, sid) == Remembered(h, sid);
    }
  }

  /** Dropping the session's entry when it has expired, and touching nothing otherwise. */
  lemma {:induction false} CheckKeeps(origins: map<string, Origin>, writes: nat, h: seq<Event>, e: Event)
    requires Represents(origins, writes, h)
    requires e.Check? && e.Effective()
    ensures var sid := NonEmpty(e.session).value;
            Represents(if sid in origins && origins[sid].expiresAt <= e.now then origins - {sid} else origins, writes, h + [e])
  {
    assert (h + [e])[..|h|] == h;
    var checked := NonEmpty(e.session).value;
    var after := if checked in origins && origins[checked].expiresAt <= e.now then origins - {checked} else origins;
    forall sid
      ensures Lookup(after, sid) == Remembered(h + [e], sid)
    {
      assert Lookup(origins, sid) == Remembered(h, sid);
    }
  }

  /** What the guard answers after history `h`, given what the table still remembers. */
  ghost predicate Verdict(h: seq<Event>, session: Option<string>, account: Option<string>, now: int) {
    && NonEmpty(session).Some?
    && NonEmpty(account).Some?
    && Foreign(Remembered(h, NonEmpty(session).value), NonEmpty(account).value, now)
  }

  /** With a nondecreasing clock, a blob that came in is held back exactly when the whole history knows it as another account's. */
  ghost predicate StrippedAsHistorySays(h: seq<Event>, headers: Object<Option<string>>, account: Option<string>, now: int, echo: Option<string>) {
    var blob, sid := ReadNamedHeader(headers, TURN_STATE_HEADER), ClientSessionId(headers);
    ClockNeverGoesBack(h + [Check(sid, account, now)]) && blob.Some? ==>
      (echo.None? <==> KnownForeign(h, sid, account, now)) && (echo.Some? ==> echo == blob)
  }

  ghost predicate KnownForeign(h: seq<Event>, session: Option<string>, account: Option<string>, now: int) {
    && NonEmpty(session).Some?
    && NonEmpty(account).Some?
    && Foreign(LastNote(h, NonEmpty(session).value), NonEmpty(account).value, now)
  }

  lemma {:induction false} EchoFollowsTheHistory(h: seq<Event>, headers: Object<Option<string>>, account: Option<string>, now: int)
    ensures var sid := ClientSessionId(headers);
            ClockNeverGoesBack(h + [Check(sid, account, now)]) ==> (Verdict(h, sid, account, now) <==> KnownForeign(h, sid, account, now))
  {
    var sid := ClientSessionId(headers);
    if ClockNeverGoesBack(h + [Check(sid, account, now)]) {
      GuardAnswersTheWholeHistory(h, sid, account, now);
    }
  }

  // ----- reading the client's headers -----

  const TURN_STATE_HEADER := "x-codex-turn-state"

  /** The first non-blank string under a name compared without case, trimmed. */
  function ReadNamedHeader(headers: Object<Option<string>>, name: string): (r: Option<string>)
    ensures r.Some? ==> r.value != "" && Trimmed(r.value)
    ensures r.Some? ==> exists i :: 0 <= i < |headers| && Lower(headers[i].0) == name && NonEmpty(headers[i].1) == r
  {
    if headers == [] then None
    else if Lower(headers[0].0) == name && NonEmpty(headers[0].1).Some? then
      assert headers[0].1.Some?;
      NonEmpty(headers[0].1)
    else
      var r := ReadNamedHeader(headers[1..], name);
      assert r.Some? ==> exists i :: 0 <= i < |headers| && Lower(headers[i].0) == name && NonEmpty(headers[i].1) == r by {
        if r.Some? {
          var i :| 0 <= i < |headers[1..]| && Lower(headers[1..][i].0) == name && NonEmpty(headers[1..][i].1) == r;
          assert headers[i + 1] == headers[1..][i];
        }
      }
      r
  }

  /** A header `ReadNamedHeader` would return the value of. */
  predicate Offers(header: (string, Option<string>), name: string) {
    Lower(header.0) == name && NonEmpty(header.1).Some?
  }

  ghost predicate FirstOffer(headers: Object<Option<string>>, name: string, i: nat) {
    i < |headers| && Offers(headers[i], name) && forall j :: 0 <= j < i ==> !Offers(headers[j], name)
  }

  /** The first header that offers a value is read, and nothing exactly when none does. */
  lemma {:induction false} ReadsTheFirstOffer(headers: Object<Option<string>>, name: string)
    ensures var r := ReadNamedHeader(headers, name);
            && (r.None? <==> forall i :: 0 <= i < |headers| ==> !Offers(headers[i], name))
            && (r.Some? ==> exists i: nat :: FirstOffer(headers, name, i) && r == NonEmpty(headers[i].1))
  {
    if headers != [] {
      ReadsTheFirstOffer(headers[1..], name);
      if Offers(headers[0], name) {
        assert FirstOffer(headers, name, 0);
      } else if ReadNamedHeader(headers[1..], name).Some? {
        var i: nat :| FirstOffer(headers[1..], name, i) && ReadNamedHeader(headers[1..], name) == NonEmpty(headers[1..][i].1);
        assert FirstOffer(headers, name, i + 1);
      }
    }
  }

  predicate SafeSessionChar(c: char) {
    'A' <= c <= 'Z' || 'a' <= c <= 'z' || IsDigit(c) || c in "._:-"
  }

  function NormalizeSessionId(raw: Option<string>): Option<string> {
    var id := NonEmpty(raw);
    if id.Some? && |id.value| <= 200 && forall c :: c in id.value ==> SafeSessionChar(c) then id else None
  }

  function ClientSessionId(headers: Object<Option<string>>): Option<string> {
    var hyphenated := NormalizeSessionId(ReadNamedHeader(headers, "session-id"));
    if hyphenated.Some? then hyphenated else NormalizeSessionId(ReadNamedHeader(headers, "session_id"))
  }

  /** The first value offered under a name, trimmed. */
  ghost predicate Offered(headers: Object<Option<string>>, name: string, value: string) {
    exists i: nat :: FirstOffer(headers, name, i) && NonEmpty(headers[i].1) == Some(value)
  }

  predicate UsableSession(id: string) {
    |id| <= 200 && forall i :: 0 <= i < |id| ==> SafeSessionChar(id[i])
  }

  /** A usable `session-id` names the session; for want of one, a usable `session_id` does. */
  ghost predicate NamesSession(headers: Object<Option<string>>, id: string) {
    && UsableSession(id)
    && (Offered(headers, "session-id", id)
        || (Offered(headers, "session_id", id) && forall other :: Offered(headers, "session-id", other) ==> !UsableSession(other)))
  }

  lemma OfferedIsRead(headers: Object<Option<string>>, name: string, value: string)
    ensures Offered(headers, name, value) <==> ReadNamedHeader(headers, name) == Some(value)
  {
    ReadsTheFirstOffer(headers, name);
    if Offered(headers, name, value) {
      var i: nat :| FirstOffer(headers, name, i) && NonEmpty(headers[i].1) == Some(value);
      assert Offers(headers[i], name);
      var k: nat :| FirstOffer(headers, name, k) && ReadNamedHeader(headers, name) == NonEmpty(headers[k].1);
      assert i == k;
    }
  }

  lemma NormalizedIfUsable(id: string)
    requires id != "" && Trimmed(id)
    ensures NormalizeSessionId(Some(id)) == if UsableSession(id) then Some(id) else None
  {
  }

  lemma NormalizedRead(headers: Object<Option<string>>, name: string, id: string)
    ensures NormalizeSessionId(ReadNamedHeader(headers, name)) == Some(id) <==> Offered(headers, name, id) && UsableSession(id)
  {
    var r := ReadNamedHeader(headers, name);
    OfferedIsRead(headers, name, id);
    if r.Some? {
      NormalizedIfUsable(r.value);
    }
  }

  lemma SessionIsNamed(headers: Object<Option<string>>, id: string)
    ensures ClientSessionId(headers) == Some(id) <==> NamesSession(headers, id)
  {
    NormalizedRead(headers, "session-id", id);
    NormalizedRead(headers, "session_id", id);
    forall other
      ensures NormalizeSessionId(ReadNamedHeader(headers, "session-id")) == Some(other) <==> Offered(headers, "session-id", other) && UsableSession(other)
    {
      NormalizedRead(headers, "session-id", other);
    }
  }

  // ----- forgetting never invents, and under a nondecreasing clock never shows -----

  /** Whatever the clock does, an entry still held is the last note ever made for its session. */
  lemma {:induction false} RememberedIsLastNote(h: seq<Event>, sid: string)
    ensures Remembered(h, sid).Some? ==> Remembered(h, sid) == LastNote(h, sid)
  {
    if h != [] {
      RememberedIsLastNote(h[..|h| - 1], sid);
    }
  }

  ghost predicate ClockNeverGoesBack(h: seq<Event>) {
    forall i, j :: 0 <= i < j < |h| ==> h[i].now <= h[j].now
  }

  lemma {:induction false} ForgottenMeansExpired(h: seq<Event>, sid: string, now: int)
    requires ClockNeverGoesBack(h)
    requires h != [] ==> h[|h| - 1].now <= now
    ensures Remembered(h, sid).None? && LastNote(h, sid).Some? ==> LastNote(h, sid).value.expiresAt <= now
  {
    if h != [] {
      var p := h[..|h| - 1];
      assert p != [] ==> p[|p| - 1] == h[|h| - 2];
      ForgottenMeansExpired(p, sid, h[|h| - 1].now);
      RememberedIsLastNote(p, sid);
    }
  }

  /** With a nondecreasing clock the guard answers exactly as the whole history would. */
  lemma {:induction false} GuardAnswersTheWholeHistory(h: seq<Event>, session: Option<string>, account: Option<string>, now: int)
    requires ClockNeverGoesBack(h + [Check(session, account, now)])
    ensures Verdict(h, session, account, now) <==> KnownForeign(h, session, account, now)
  {
    var all := h + [Check(session, account, now)];
    assert forall i :: 0 <= i < |h| ==> all[i] == h[i];
    assert h != [] ==> all[|h| - 1].now <= all[|h|].now;
    if NonEmpty(session).Some? {
      var sid := NonEmpty(session).value;
      ForgottenMeansExpired(h, sid, now);
      RememberedIsLastNote(h, sid);
    }
  }

  /** With any clock at all, a true answer names a real, unexpired, foreign last note. */
  lemma {:induction false} GuardIsSoundForAnyClock(h: seq<Event>, session: Option<string>, account: Option<string>, now: int)
    requires Verdict(h, session, account, now)
    ensures KnownForeign(h, session, account, now)
  {
    RememberedIsLastNote(h, NonEmpty(session).value);
  }

  /** Position of the last note for `sid`. */
  ghost predicate LastNoteAt(h: seq<Event>, sid: string, i: nat) {
    && i < |h|
    && h[i].Notes(sid)
    && forall j :: i < j < |h| ==> !h[j].Notes(sid)
  }

  /** Call `j` deletes the note made at `i`: it sweeps, or checks that session, at or past the expiry. */
  ghost predicate Evicts(h: seq<Event>, sid: string, i: nat, j: nat)
    requires i < j < |h| && h[i].Notes(sid)
  {
    (Sweeps(h[..j], h[j]) || h[j].Checks(sid)) && h[i].Minted().expiresAt <= h[j].now
  }

  ghost predicate EvictedBefore(h: seq<Event>, sid: string, i: nat, n: nat)
    requires i < n <= |h| && h[i].Notes(sid)
  {
    exists j :: i < j < n && Evicts(h, sid, i, j)
  }

  /** One more call on a held or forgotten session it does not note. */
  lemma {:induction false} OneMoreCall(h: seq<Event>, sid: string, n: nat)
    requires n < |h| && !h[n].Notes(sid)
    ensures LastNote(h[..n + 1], sid) == LastNote(h[..n], sid)
    ensures var held := Remembered(h[..n], sid);
            Remembered(h[..n + 1], sid)
            == if (Sweeps(h[..n], h[n]) || h[n].Checks(sid)) && held.Some? && held.value.expiresAt <= h[n].now then None else held
  {
    assert h[..n + 1][..n] == h[..n];
  }

  lemma {:induction false} ForgottenByThen(h: seq<Event>, sid: string, i: nat, n: nat)
    requires i < n <= |h| && h[i].Notes(sid) && forall j :: i < j < n ==> !h[j].Notes(sid)
    ensures LastNote(h[..n], sid) == Some(h[i].Minted())
    ensures Remembered(h[..n], sid).None? <==> EvictedBefore(h, sid, i, n)
  {
    if n == i + 1 {
      JustNoted(h, sid, i);
    } else {
      ForgottenByThen(h, sid, i, n - 1);
      ForgottenStep(h, sid, i, n - 1);
    }
  }

  lemma {:induction false} JustNoted(h: seq<Event>, sid: string, i: nat)
    requires i < |h| && h[i].Notes(sid)
    ensures LastNote(h[..i + 1], sid) == Remembered(h[..i + 1], sid) == Some(h[i].Minted())
    ensures !EvictedBefore(h, sid, i, i + 1)
  {
    assert h[..i + 1][i] == h[i];
  }

  lemma {:induction false} ForgottenStep(h: seq<Event>, sid: string, i: nat, n: nat)
    requires i < n < |h| && h[i].Notes(sid) && !h[n].Notes(sid)
    requires LastNote(h[..n], sid) == Some(h[i].Minted())
    requires Remembered(h[..n], sid).None? <==> EvictedBefore(h, sid, i, n)
    ensures LastNote(h[..n + 1], sid) == Some(h[i].Minted())
    ensures Remembered(h[..n + 1], sid).None? <==> EvictedBefore(h, sid, i, n + 1)
  {
    OneMoreCall(h, sid, n);
    RememberedIsLastNote(h[..n], sid);
    EvictedOneMore(h, sid, i, n);
  }

  lemma {:induction false} EvictedOneMore(h: seq<Event>, sid: string, i: nat, n: nat)
    requires i < n < |h| && h[i].Notes(sid)
    ensures EvictedBefore(h, sid, i, n + 1) <==>
            EvictedBefore(h, sid, i, n) || ((Sweeps(h[..n], h[n]) || h[n].Checks(sid)) && h[i].Minted().expiresAt <= h[n].now)
  {
    assert Evicts(h, sid, i, n) <==> (Sweeps(h[..n], h[n]) || h[n].Checks(sid)) && h[i].Minted().expiresAt <= h[n].now;
  }

  /** With any clock: a noted session is forgotten exactly when some later call evicted its last note. */
  lemma ForgottenExactlyWhenEvicted(h: seq<Event>, sid: string, i: nat)
    requires LastNoteAt(h, sid, i)
    ensures LastNote(h, sid) == Some(h[i].Minted())
    ensures Remembered(h, sid).None? <==> exists j :: i < j < |h| && Evicts(h, sid, i, j)
  {
    ForgottenByThen(h, sid, i, |h|);
    assert h[..|h|] == h;
  }

  /** Some call made after the last note for `sid` deleted it. */
  ghost predicate LastNoteEvicted(h: seq<Event>, sid: string) {
    exists i: nat, j: nat :: LastNoteAt(h, sid, i) && i < j < |h| && Evicts(h, sid, i, j)
  }

  lemma {:induction false} LastNoteIsSomewhere(h: seq<Event>, sid: string) returns (i: nat)
    requires LastNote(h, sid).Some?
    ensures LastNoteAt(h, sid, i)
  {
    if h[|h| - 1].Notes(sid) {
      i := |h| - 1;
    } else {
      var p := h[..|h| - 1];
      i := LastNoteIsSomewhere(p, sid);
      assert forall j :: 0 <= j < |p| ==> p[j] == h[j];
    }
  }

  lemma EvictedIsForgotten(h: seq<Event>, sid: string)
    requires LastNote(h, sid).Some?
    ensures LastNoteEvicted(h, sid) <==> Remembered(h, sid).None?
  {
    var i := LastNoteIsSomewhere(h, sid);
    ForgottenExactlyWhenEvicted(h, sid, i);
    if LastNoteEvicted(h, sid) {
      var k: nat, j: nat :| LastNoteAt(h, sid, k) && k < j < |h| && Evicts(h, sid, k, j);
      assert k == i;
    }
  }

  /** With any clock: the guard answers as the whole history would, exactly unless a call made since has evicted the last note. */
  lemma {:induction false} GuardForAnyClock(h: seq<Event>, session: Option<string>, account: Option<string>, now: int)
    ensures Verdict(h, session, account, now) <==>
            KnownForeign(h, session, account, now) && !LastNoteEvicted(h, NonEmpty(session).value)
  {
    var sid := NonEmpty(session);
    if sid.Some? {
      RememberedIsLastNote(h, sid.value);
      if LastNote(h, sid.value).Some? {
        EvictedIsForgotten(h, sid.value);
      }
    }
  }

  /** A clock that steps back can lose a live foreign note: the guard lets the blob through. */
  lemma SteppingBackLosesANote()
    ensures var h := [Note(Some("s"), Some("a"), 0), Check(Some("s"), Some("b"), TTL_MS)];
            !Verdict(h, Some("s"), Some("b"), 5) && Foreign(LastNote(h, "s"), "b", 5)
  {
    var h := [Note(Some("s"), Some("a"), 0), Check(Some("s"), Some("b"), TTL_MS)];
    assert h[..1] == [h[0]];
    assert h[..1][..0] == [];
    assert NonEmpty(Some("s")) == Some("s") && NonEmpty(Some("a")) == Some("a") && NonEmpty(Some("b")) == Some("b");
    assert LastNote(h[..1], "s") == Some(Origin("a", TTL_MS));
    assert Remembered(h[..1], "s") == Some(Origin("a", TTL_MS));
  }

  /** In plain terms: the last note for the session is by another account and less than two hours old. */
  lemma {:induction false} KnownForeignIs(h: seq<Event>, sid: string, account: Option<string>, now: int)
    requires sid != "" && Trimmed(sid)
    ensures KnownForeign(h, Some(sid), account, now) <==>
            NonEmpty(account).Some? && exists i: nat :: LastNoteAt(h, sid, i) && NonEmpty(h[i].account) != NonEmpty(account) && now < h[i].now + 7_200_000
  {
    assert NonEmpty(Some(sid)) == Some(sid);
    if LastNote(h, sid).Some? {
      var i := LastNoteIsSomewhere(h, sid);
      ForgottenExactlyWhenEvicted(h, sid, i);
      forall k: nat | LastNoteAt(h, sid, k)
        ensures k == i
      {
      }
    } else {
      forall k: nat
        ensures !LastNoteAt(h, sid, k)
      {
        if LastNoteAt(h, sid, k) {
          ForgottenExactlyWhenEvicted(h, sid, k);
        }
      }
    }
  }

  // ----- the echo, from the client's headers to what is forwarded -----

  ghost function Echo(h: seq<Event>, headers: Object<Option<string>>, account: Option<string>, now: int): Option<string> {
    var blob, sid := ReadNamedHeader(headers, TURN_STATE_HEADER), ClientSessionId(headers);
    if sid.Some? && Verdict(h, sid, account, now) then None else blob
  }

  lemma {:induction false} NamedSessionIsPlain(headers: Object<Option<string>>, id: string)
    requires NamesSession(headers, id)
    ensures id != "" && Trimmed(id) && NonEmpty(Some(id)) == Some(id)
  {
    SessionIsNamed(headers, id);
  }

  lemma {:induction false} EchoForSession(h: seq<Event>, headers: Object<Option<string>>, account: Option<string>, now: int, id: string)
    requires NamesSession(headers, id)
    ensures Echo(h, headers, account, now) == if Verdict(h, Some(id), account, now) then None else ReadNamedHeader(headers, TURN_STATE_HEADER)
  {
    SessionIsNamed(headers, id);
  }

  lemma {:induction false} EchoWithoutSession(h: seq<Event>, headers: Object<Option<string>>, account: Option<string>, now: int)
    requires forall id :: !NamesSession(headers, id)
    ensures Echo(h, headers, account, now) == ReadNamedHeader(headers, TURN_STATE_HEADER)
  {
    if ClientSessionId(headers).Some? {
      SessionIsNamed(headers, ClientSessionId(headers).value);
    }
  }

  /**
   What a client's blob becomes, by the raw headers: it is held back exactly when
   the session they name is known to be another account's and no call has evicted
   the note since, which under a nondecreasing clock no call has. A blob that names
   no session always passes.
   */
  lemma {:induction false} EchoByHeaders(h: seq<Event>, headers: Object<Option<string>>, account: Option<string>, now: int, blob: string)
    requires Offered(headers, "x-codex-turn-state", blob)
    ensures var echo := Echo(h, headers, account, now);
            && (echo.Some? ==> echo == Some(blob))
            && (forall id :: NamesSession(headers, id) ==>
                  && (echo.None? <==> KnownForeign(h, Some(id), account, now) && !LastNoteEvicted(h, id))
                  && (ClockNeverGoesBack(h + [Check(Some(id), account, now)]) ==> (echo.None? <==> KnownForeign(h, Some(id), account, now))))
            && ((forall id :: !NamesSession(headers, id)) ==> echo == Some(blob))
  {
    OfferedIsRead(headers, "x-codex-turn-state", blob);
    var echo := Echo(h, headers, account, now);
    forall id | NamesSession(headers, id)
      ensures echo.None? <==> KnownForeign(h, Some(id), account, now) && !LastNoteEvicted(h, id)
      ensures ClockNeverGoesBack(h + [Check(Some(id), account, now)]) ==> (echo.None? <==> KnownForeign(h, Some(id), account, now))
    {
      NamedSessionIsPlain(headers, id);
      EchoForSession(h, headers, account, now, id);
      GuardForAnyClock(h, Some(id), account, now);
      if ClockNeverGoesBack(h + [Check(Some(id), account, now)]) {
        GuardAnswersTheWholeHistory(h, Some(id), account, now);
      }
    }
    if forall id :: !NamesSession(headers, id) {
      EchoWithoutSession(h, headers, account, now);
    }
  }

  /** Without a blob nothing is forwarded. */
  lemma {:induction false} NoBlobNoEcho(h: seq<Event>, headers: Object<Option<string>>, account: Option<string>, now: int)
    requires forall blob :: !Offered(headers, "x-codex-turn-state", blob)
    ensures Echo(h, headers, account, now).None?
  {
    var r := ReadNamedHeader(headers, TURN_STATE_HEADER);
    if r.Some? {
      OfferedIsRead(headers, TURN_STATE_HEADER, r.value);
    }
  }

  // ----- the memory bound -----

  ghost function NotedSessions(h: seq<Event>): set<string> {
    set i | 0 <= i < |h| && h[i].Note? && h[i].Effective() :: NonEmpty(h[i].session).value
  }

  /** The distinct sessions whose last note was still unexpired when the last sweep ran. */
  ghost function LiveAtLastSweep(h: seq<Event>): set<string> {
    if h == [] then {}
    else
      var p, e := h[..|h| - 1], h[|h| - 1];
      if Sweeps(p, e) then
        set sid | sid in NotedSessions(h) && LastNote(h, sid).Some? && e.now < LastNote(h, sid).value.expiresAt
      else LiveAtLastSweep(p)
  }

  lemma {:induction false} RememberedWasNoted(h: seq<Event>, sid: string)
    ensures Remembered(h, sid).Some? ==> sid in NotedSessions(h)
  {
    if h != [] {
      var p := h[..|h| - 1];
      RememberedWasNoted(p, sid);
      assert forall i :: 0 <= i < |p| ==> p[i] == h[i];
      if h[|h| - 1].Notes(sid) {
        assert NonEmpty(h[|h| - 1].session).value == sid;
      }
    }
  }

  lemma {:induction false} HeldAtASweepWasLive(h: seq<Event>, held: set<string>)
    requires h != [] && Sweeps(h[..|h| - 1], h[|h| - 1])
    requires forall sid :: sid in held ==> Remembered(h, sid).Some?
    ensures held <= LiveAtLastSweep(h)
  {
    forall sid | sid in held
      ensures sid in LiveAtLastSweep(h)
    {
      RememberedWasNoted(h, sid);
      RememberedIsLastNote(h, sid);
    }
  }

  lemma {:induction false} HeldBefore(h: seq<Event>, held: set<string>)
    requires h != []
    requires forall sid :: sid in held ==> Remembered(h, sid).Some?
    requires forall sid :: sid in held ==> !h[|h| - 1].Notes(sid)
    ensures forall sid :: sid in held ==> Remembered(h[..|h| - 1], sid).Some?
  {
  }

  lemma {:induction false} NothingSweptYet(h: seq<Event>)
    requires EffectiveWrites(h) < SWEEP_EVERY_WRITES
    ensures LiveAtLastSweep(h) == {}
  {
    if h != [] {
      var p := h[..|h| - 1];
      assert EffectiveWrites(p) <= EffectiveWrites(h);
      NothingSweptYet(p);
      if Sweeps(p, h[|h| - 1]) {
        NoSmallMultiple(EffectiveWrites(h));
      }
    }
  }

  lemma NoSmallMultiple(n: nat)
    requires 0 < n < SWEEP_EVERY_WRITES
    ensures n % SWEEP_EVERY_WRITES != 0
  {
  }

  /** Between sweeps the live set stands still and the remainder counts the writes. */
  lemma {:induction false} BetweenSweeps(h: seq<Event>)
    requires h != [] && !Sweeps(h[..|h| - 1], h[|h| - 1])
    ensures LiveAtLastSweep(h) == LiveAtLastSweep(h[..|h| - 1])
    ensures EffectiveWrites(h) % SWEEP_EVERY_WRITES == EffectiveWrites(h[..|h| - 1]) % SWEEP_EVERY_WRITES
                                                       + if h[|h| - 1].Note? && h[|h| - 1].Effective() then 1 else 0
  {
    var n := EffectiveWrites(h[..|h| - 1]);
    if (n + 1) % SWEEP_EVERY_WRITES != 0 {
      OneMore(n);
    }
  }

  lemma OneMore(n: nat)
    requires (n + 1) % SWEEP_EVERY_WRITES != 0
    ensures (n + 1) % SWEEP_EVERY_WRITES == n % SWEEP_EVERY_WRITES + 1
  {
  }

  /** In every reachable state, whatever the clock did, the table is this small. */
  lemma {:induction false} MemoryBound(h: seq<Event>, held: set<string>)
    requires forall sid :: sid in held ==> Remembered(h, sid).Some?
    ensures |held| <= |LiveAtLastSweep(h)| + EffectiveWrites(h) % SWEEP_EVERY_WRITES
    decreases h, 1
  {
    if h == [] {
      assert forall sid :: Remembered(h, sid).None?;
      assert held == {};
    } else if Sweeps(h[..|h| - 1], h[|h| - 1]) {
      HeldAtASweepWasLive(h, held);
      SubsetSize(held, LiveAtLastSweep(h));
    } else {
      MemoryBoundBetweenSweeps(h, held);
    }
  }

  lemma {:induction false} MemoryBoundBetweenSweeps(h: seq<Event>, held: set<string>)
    requires h != [] && !Sweeps(h[..|h| - 1], h[|h| - 1])
    requires forall sid :: sid in held ==> Remembered(h, sid).Some?
    ensures |held| <= |LiveAtLastSweep(h)| + EffectiveWrites(h) % SWEEP_EVERY_WRITES
    decreases h, 0
  {
    var p, e := h[..|h| - 1], h[|h| - 1];
    BetweenSweeps(h);
    if e.Note? && e.Effective() {
      var others := held - {NonEmpty(e.session).value};
      HeldBefore(h, others);
      MemoryBound(p, others);
      SubsetSize(held, others + {NonEmpty(e.session).value});
    } else {
      HeldBefore(h, held);
      MemoryBound(p, held);
    }
  }

  /** The same bound on the table's own map; before the first sweep it is just the number of writes. */
  lemma {:induction false} TableIsSmall(t: TurnStateTable)
    requires t.Valid()
    ensures |t.origins| <= |LiveAtLastSweep(t.history)| + t.writes % SWEEP_EVERY_WRITES
    ensures t.writes < SWEEP_EVERY_WRITES ==> |t.origins| <= t.writes
  {
    forall sid | sid in t.origins
      ensures Remembered(t.history, sid).Some?
    {
      assert Lookup(t.origins, sid).Some?;
    }
    MemoryBound(t.history, t.origins.Keys);
    if t.writes < SWEEP_EVERY_WRITES {
      NothingSweptYet(t.history);
    }
  }
}

/**
 Asking the provider to clear old tool uses: one edit added to the request's
 context_management list, behind every clear-thinking edit.
 */
module ContextEditing {
  import opened Prelude

  const CLEAR_TOOL_USES := "clear_tool_uses_20250919"
  const CLEAR_THINKING := "clear_thinking_20251015"

  predicate HasType(edit: Json, kind: string) {
    edit.Obj? && Get(edit.fields, "type") == Some(Str(kind))
  }

  const NEW_EDIT := Obj([
    ("type", Str(CLEAR_TOOL_USES)),
    ("trigger", Obj([("type", Str("input_tokens")), ("value", Num(100000))])),
    ("keep", Obj([("type", Str("tool_uses")), ("value", Num(3))]))
  ])

  // ----- sorting by a two-valued rank: `first` says which edits rank 0 -----

  type Rank = Json -> bool

  function Select(edits: seq<Json>, first: Rank, value: bool): seq<Json> {
    if edits == [] then []
    else if first(edits[0]) == value then [edits[0]] + Select(edits[1..], first, value)
    else Select(edits[1..], first, value)
  }

  ghost predicate Sorted(edits: seq<Json>, first: Rank) {
    forall i, j :: 0 <= i < j < |edits| && first(edits[j]) ==> first(edits[i])
  }

  /** Ordered by rank, with edits of equal rank in the order they had: what a stable sort returns. */
  ghost predicate IsStableSort(edits: seq<Json>, sorted: seq<Json>, first: Rank) {
    Sorted(sorted, first) && forall value: bool :: Select(sorted, first, value) == Select(edits, first, value)
  }

  function Partition(edits: seq<Json>, first: Rank): seq<Json> {
    Select(edits, first, true) + Select(edits, first, false)
  }

  lemma {:induction false} SelectConcat(a: seq<Json>, b: seq<Json>, first: Rank, value: bool)
    ensures Select(a + b, first, value) == Select(a, first, value) + Select(b, first, value)
  {
    if a == [] {
      assert a + b == b;
    } else {
      SelectConcat(a[1..], b, first, value);
      HeadOfConcat(a, b);
      Associative([a[0]], Select(a[1..], first, value), Select(b, first, value));
    }
  }

  lemma {:induction false} SelectUniform(edits: seq<Json>, first: Rank, value: bool)
    requires forall i :: 0 <= i < |edits| ==> first(edits[i]) == value
    ensures Select(edits, first, value) == edits && Select(edits, first, !value) == []
  {
    if edits != [] {
      SelectUniform(edits[1..], first, value);
      assert edits == [edits[0]] + edits[1..];
    }
  }

  lemma {:induction false} SortedIsPartitioned(sorted: seq<Json>, first: Rank)
    requires Sorted(sorted, first)
    ensures sorted == Partition(sorted, first)
  {
    if sorted != [] {
      if first(sorted[0]) {
        SortedIsPartitioned(sorted[1..], first);
      } else {
        SelectUniform(sorted, first, false);
      }
      assert sorted == [sorted[0]] + sorted[1..];
    }
  }

  /** Whatever stable algorithm sorts by that rank, the result is the plain partition. */
  lemma StableSortIsPartition(edits: seq<Json>, sorted: seq<Json>, first: Rank)
    requires IsStableSort(edits, sorted, first)
    ensures sorted == Partition(edits, first)
  {
    SortedIsPartitioned(sorted, first);
  }

  /** A stable insertion sort by rank. */
  method SortByRank(edits: seq<Json>, first: Rank) returns (sorted: seq<Json>)
    ensures IsStableSort(edits, sorted, first)
  {
    sorted := [];
    for i := 0 to |edits|
      invariant IsStableSort(edits[..i], sorted, first)
    {
      var edit := edits[i];
      var at := |sorted|;
      while 0 < at && first(edit) && !first(sorted[at - 1])
        invariant 0 <= at <= |sorted|
        invariant at < |sorted| ==> first(edit)
        invariant forall k :: at <= k < |sorted| ==> !first(sorted[k])
      {
        at := at - 1;
      }
      InsertIsStable(edits[..i], sorted, first, edit, at);
      sorted := sorted[..at] + [edit] + sorted[at..];
      assert edits[..i + 1] == edits[..i] + [edit];
    }
    assert edits[..|edits|] == edits;
  }

  lemma InsertKeepsTheClasses(low: seq<Json>, high: seq<Json>, first: Rank, edit: Json, value: bool)
    requires high != [] ==> first(edit)
    requires forall k :: 0 <= k < |high| ==> !first(high[k])
    ensures Select(low + [edit] + high, first, value)
         == Select(low + high, first, value) + if first(edit) == value then [edit] else []
  {
    SelectConcat(low, high, first, value);
    SelectConcat(low, [edit], first, value);
    SelectConcat(low + [edit], high, first, value);
    assert Select([edit], first, value) == if first(edit) == value then [edit] else [];
    SelectUniform(high, first, false);
  }

  lemma InsertIsStable(edits: seq<Json>, sorted: seq<Json>, first: Rank, edit: Json, at: nat)
    requires IsStableSort(edits, sorted, first) && at <= |sorted|
    requires at < |sorted| ==> first(edit)
    requires forall k :: at <= k < |sorted| ==> !first(sorted[k])
    requires at > 0 && first(edit) ==> first(sorted[at - 1])
    ensures IsStableSort(edits + [edit], sorted[..at] + [edit] + sorted[at..], first)
  {
    var low, high := sorted[..at], sorted[at..];
    assert sorted == low + high;
    var r := low + [edit] + high;
    forall value: bool
      ensures Select(r, first, value) == Select(edits + [edit], first, value)
    {
      InsertKeepsTheClasses(low, high, first, edit, value);
      SelectConcat(edits, [edit], first, value);
      assert Select([edit], first, value) == if first(edit) == value then [edit] else [];
    }
    forall i, j | 0 <= i < j < |r| && first(r[j])
      ensures first(r[i])
    {
      if j < at {
        assert r[i] == sorted[i] && r[j] == sorted[j];
      } else if j == at && i < at {
        assert r[i] == sorted[i] && first(sorted[at - 1]);
      }
    }
  }

  /** The comparator of the source: clear-thinking edits rank before all others. */
  const THINKING_FIRST: Rank := (edit: Json) => HasType(edit, CLEAR_THINKING)

  // ----- the request body -----

  predicate HasToolUseEdit(edits: seq<Json>) {
    exists i :: 0 <= i < |edits| && HasType(edits[i], CLEAR_TOOL_USES)
  }

  function EditsOf(management: Object<Json>): seq<Json> {
    var edits := Get(management, "edits");
    if edits.Some? && edits.value.Arr? then edits.value.items else []
  }

  /** The body's context_management as an object; scalars and a missing value read as empty. */
  function ManagementOf(body: Object<Json>): Object<Json> {
    var management := Get(body, "context_management");
    if management.Some? && management.value.Obj? then management.value.fields else []
  }

  /** JavaScript would hang the edits on an array as a property that is never sent. */
  predicate ManagementIsArray(body: Object<Json>) {
    Get(body, "context_management").Some? && Get(body, "context_management").value.Arr?
  }

  function NewEdits(edits: seq<Json>): seq<Json> {
    if HasToolUseEdit(edits) then edits else Partition(edits + [NEW_EDIT], THINKING_FIRST)
  }

  function Applied(body: Object<Json>, enabled: bool): Object<Json> {
    if !enabled || ManagementIsArray(body) then body
    else
      var management := ManagementOf(body);
      Set(body, "context_management", Obj(Set(management, "edits", Arr(NewEdits(EditsOf(management))))))
  }

  class MessagesBody {
    var fields: Object<Json>

    constructor (fields: Object<Json>)
      ensures this.fields == fields
    {
      this.fields := fields;
    }

    method ApplyContextEditing(enabled: bool)
      modifies this
      ensures fields == Applied(old(fields), enabled)
    {
      if !enabled || ManagementIsArray(fields) {
        return;
      }
      var existing := ManagementOf(fields);
      var edits := EditsOf(existing);
      if !HasToolUseEdit(edits) {
        ghost var before := edits;
        edits := edits + [NEW_EDIT];
        var sorted := SortByRank(edits, THINKING_FIRST);
        StableSortIsPartition(edits, sorted, THINKING_FIRST);
        edits := sorted;
      }
      existing := Set(existing, "edits", Arr(edits));
      fields := Set(fields, "context_management", Obj(existing));
    }
  }

  lemma NewEditIsLast(edits: seq<Json>)
    ensures Partition(edits + [NEW_EDIT], THINKING_FIRST) == Select(edits, THINKING_FIRST, true) + Select(edits, THINKING_FIRST, false) + [NEW_EDIT]
    ensures HasToolUseEdit(Partition(edits + [NEW_EDIT], THINKING_FIRST))
  {
    SelectConcat(edits, [NEW_EDIT], THINKING_FIRST, true);
    SelectConcat(edits, [NEW_EDIT], THINKING_FIRST, false);
    assert Get(NEW_EDIT.fields, "type") == Some(Str(CLEAR_TOOL_USES));
    assert HasType(NEW_EDIT, CLEAR_TOOL_USES) && !THINKING_FIRST(NEW_EDIT);
    assert Select([NEW_EDIT], THINKING_FIRST, true) == [] && Select([NEW_EDIT], THINKING_FIRST, false) == [NEW_EDIT];
    var r := Partition(edits + [NEW_EDIT], THINKING_FIRST);
    assert r[|r| - 1] == NEW_EDIT;
  }

  lemma {:induction false} SelectKeepsAll(edits: seq<Json>)
    ensures multiset(Select(edits, THINKING_FIRST, true)) + multiset(Select(edits, THINKING_FIRST, false)) == multiset(edits)
  {
    if edits != [] {
      SelectKeepsAll(edits[1..]);
      assert edits == [edits[0]] + edits[1..];
    }
  }

  /** The list sent: thinking edits, then the others, each in their order, then the new edit; unchanged if one was there; none lost. */
  lemma EditsAreTheStablePartition(body: Object<Json>)
    requires !ManagementIsArray(body)
    ensures var before, after := EditsOf(ManagementOf(body)), EditsOf(ManagementOf(Applied(body, true)));
            && (HasToolUseEdit(before) ==> after == before)
            && (!HasToolUseEdit(before) ==>
                  && after == Select(before, THINKING_FIRST, true) + Select(before, THINKING_FIRST, false) + [NEW_EDIT]
                  && multiset(after) == multiset(before) + multiset{NEW_EDIT})
  {
    AppliedReads(body);
    var before := EditsOf(ManagementOf(body));
    NewEditIsLast(before);
    SelectKeepsAll(before);
  }

  lemma AppliedReads(body: Object<Json>)
    requires !ManagementIsArray(body)
    ensures ManagementOf(Applied(body, true)) == Set(ManagementOf(body), "edits", Arr(NewEdits(EditsOf(ManagementOf(body)))))
    ensures EditsOf(ManagementOf(Applied(body, true))) == NewEdits(EditsOf(ManagementOf(body)))
    ensures !ManagementIsArray(Applied(body, true))
  {
    var management := ManagementOf(body);
    var edits := Arr(NewEdits(EditsOf(management)));
    GetAfterSet(body, "context_management", Obj(Set(management, "edits", edits)), "context_management");
    GetAfterSet(management, "edits", edits, "edits");
  }

  predicate IsToolUseEdit(edit: Json) {
    edit.Obj? && Get(edit.fields, "type") == Some(Str("clear_tool_uses_20250919"))
  }

  predicate IsThinkingEdit(edit: Json) {
    edit.Obj? && Get(edit.fields, "type") == Some(Str("clear_thinking_20251015"))
  }

  /** The incoming list: `edits` of the incoming context_management, if both are of the right kind. */
  ghost predicate SentEdits(body: Object<Json>, edits: seq<Json>) {
    exists m :: Get(body, "context_management") == Some(Obj(m)) && Get(m, "edits") == Some(Arr(edits))
  }

  /** `after` holds every edit of `before` and one more: the thinking edits first, the rest next, each in the order they had, and the new one last. */
  ghost predicate EditsAdded(before: seq<Json>, after: seq<Json>) {
    exists thinking, others, edit ::
      && after == thinking + others + [edit]
      && (forall x :: x in thinking ==> IsThinkingEdit(x)) && (forall x :: x in others ==> !IsThinkingEdit(x))
      && Interleaves(before, thinking, others)
      && IsClearingEdit(edit)
  }

  /** The edit asks to clear tool uses once the input reaches 100000 tokens, and to keep the last three. */
  ghost predicate IsClearingEdit(edit: Json) {
    && IsToolUseEdit(edit)
    && HoldsSetting(edit, "trigger", "input_tokens", 100000)
    && HoldsSetting(edit, "keep", "tool_uses", 3)
  }

  ghost predicate HoldsSetting(edit: Json, key: string, kind: string, value: int) {
    edit.Obj? && exists o :: Get(edit.fields, key) == Some(Obj(o)) && Get(o, "type") == Some(Str(kind)) && Get(o, "value") == Some(Num(value))
  }

  lemma NewEditClears()
    ensures IsClearingEdit(NEW_EDIT) && !IsThinkingEdit(NEW_EDIT)
  {
    assert Get(NEW_EDIT.fields, "type") == Some(Str(CLEAR_TOOL_USES));
    var trigger := [("type", Str("input_tokens")), ("value", Num(100000))];
    var keep := [("type", Str("tool_uses")), ("value", Num(3))];
    var fields := NEW_EDIT.fields;
    assert Get(fields, "trigger") == Get(fields[1..], "trigger") == Some(Obj(trigger));
    assert Get(fields, "keep") == Get(fields[1..], "keep") == Get(fields[1..][1..], "keep") == Some(Obj(keep));
    assert Get(trigger, "type") == Some(Str("input_tokens")) && Get(trigger, "value") == Some(Num(100000));
    assert Get(keep, "type") == Some(Str("tool_uses")) && Get(keep, "value") == Some(Num(3));
  }

  /** `all` is `a` and `b` shuffled together, each in its own order. */
  ghost predicate Interleaves(all: seq<Json>, a: seq<Json>, b: seq<Json>) {
    if all == [] then a == [] && b == []
    else
      || (a != [] && a[0] == all[0] && Interleaves(all[1..], a[1..], b))
      || (b != [] && b[0] == all[0] && Interleaves(all[1..], a, b[1..]))
  }

  lemma {:induction false} SelectionsInterleave(edits: seq<Json>, first: Rank)
    ensures Interleaves(edits, Select(edits, first, true), Select(edits, first, false))
    ensures forall x :: x in Select(edits, first, true) ==> first(x)
    ensures forall x :: x in Select(edits, first, false) ==> !first(x)
  {
    if edits != [] {
      SelectionsInterleave(edits[1..], first);
      var value := first(edits[0]);
      var rest := Select(edits[1..], first, value);
      assert Select(edits, first, value)[1..] == rest;
    }
  }

  /** The list sent, from the list that came in. */
  ghost predicate EditsSent(before: seq<Json>, after: seq<Json>) {
    if exists x :: x in before && IsToolUseEdit(x) then after == before else EditsAdded(before, after)
  }

  lemma HasToolUseEditIs(edits: seq<Json>)
    ensures HasToolUseEdit(edits) <==> exists x :: x in edits && IsToolUseEdit(x)
  {
    if HasToolUseEdit(edits) {
      var i :| 0 <= i < |edits| && HasType(edits[i], CLEAR_TOOL_USES);
      assert edits[i] in edits && IsToolUseEdit(edits[i]);
    }
    if x :| x in edits && IsToolUseEdit(x) {
      var i :| 0 <= i < |edits| && edits[i] == x;
      assert HasType(edits[i], CLEAR_TOOL_USES);
    }
  }

  lemma NewEditsAreSent(before: seq<Json>)
    ensures EditsSent(before, NewEdits(before))
  {
    HasToolUseEditIs(before);
    if !HasToolUseEdit(before) {
      NewEditIsLast(before);
      NewEditClears();
      SelectionsInterleave(before, THINKING_FIRST);
      var thinking, others := Select(before, THINKING_FIRST, true), Select(before, THINKING_FIRST, false);
      assert forall x :: IsThinkingEdit(x) <==> THINKING_FIRST(x);
      assert NewEdits(before) == thinking + others + [NEW_EDIT];
    }
  }

  lemma SentEditsAre(body: Object<Json>, edits: seq<Json>)
    ensures SentEdits(body, edits) ==> EditsOf(ManagementOf(body)) == edits
    ensures EditsOf(ManagementOf(body)) == edits && edits != [] ==> SentEdits(body, edits)
  {
  }

  /** What the incoming context_management holds under a key, if it is an object. */
  function ManagementKey(body: Object<Json>, key: string): Option<Json> {
    var sent := Get(body, "context_management");
    if sent.Some? && sent.value.Obj? then Get(sent.value.fields, key) else None
  }

  lemma AppliedKeys(body: Object<Json>, m: Object<Json>, key: string)
    requires !ManagementIsArray(body)
    requires m == Set(ManagementOf(body), "edits", Arr(NewEdits(EditsOf(ManagementOf(body)))))
    ensures Get(Applied(body, true), key) == if key == "context_management" then Some(Obj(m)) else Get(body, key)
    ensures Get(m, key) == if key == "edits" then Some(Arr(NewEdits(EditsOf(ManagementOf(body))))) else ManagementKey(body, key)
  {
    GetAfterSet(body, "context_management", Obj(m), key);
    GetAfterSet(ManagementOf(body), "edits", Arr(NewEdits(EditsOf(ManagementOf(body)))), key);
  }

  /** The list that came in, or an empty one for want of any, is sent as it should be. */
  ghost predicate SendsEdits(body: Object<Json>, after: seq<Json>) {
    && (forall before :: SentEdits(body, before) ==> EditsSent(before, after))
    && ((forall before :: !SentEdits(body, before)) ==> EditsSent([], after))
  }

  lemma SentEditsDecide(body: Object<Json>, after: seq<Json>)
    requires after == NewEdits(EditsOf(ManagementOf(body)))
    ensures SendsEdits(body, after)
  {
    var sent := EditsOf(ManagementOf(body));
    NewEditsAreSent(sent);
    SentEditsAre(body, sent);
    forall before | SentEdits(body, before)
      ensures before == sent
    {
      SentEditsAre(body, before);
    }
  }

  /** Between `body` and `sent`, whose context_management is `m`, no other field and no other key of it differs. */
  ghost predicate OthersStay(body: Object<Json>, sent: Object<Json>, m: Object<Json>) {
    && (forall key :: key != "context_management" ==> Get(sent, key) == Get(body, key))
    && (forall key :: key != "edits" ==> Get(m, key) == ManagementKey(body, key))
  }

  lemma AppliedKeepsOthers(body: Object<Json>, m: Object<Json>)
    requires !ManagementIsArray(body)
    requires m == Set(ManagementOf(body), "edits", Arr(NewEdits(EditsOf(ManagementOf(body)))))
    ensures OthersStay(body, Applied(body, true), m)
  {
    forall key | key != "context_management"
      ensures Get(Applied(body, true), key) == Get(body, key)
    {
      AppliedKeys(body, m, key);
    }
    forall key | key != "edits"
      ensures Get(m, key) == ManagementKey(body, key)
    {
      AppliedKeys(body, m, key);
    }
  }

  /** Field by field: the other body fields and the other keys of context_management stay, and the edits are sent as they should be. */
  lemma AppliedByFields(body: Object<Json>) returns (m: Object<Json>, after: seq<Json>)
    requires !ManagementIsArray(body)
    ensures OthersStay(body, Applied(body, true), m)
    ensures Get(Applied(body, true), "context_management") == Some(Obj(m))
    ensures Get(m, "edits") == Some(Arr(after))
    ensures SendsEdits(body, after)
  {
    after := NewEdits(EditsOf(ManagementOf(body)));
    m := Set(ManagementOf(body), "edits", Arr(after));
    AppliedKeepsOthers(body, m);
    AppliedKeys(body, m, "context_management");
    AppliedKeys(body, m, "edits");
    SentEditsDecide(body, after);
  }

  /** A call that is not enabled sends the body as it is, and so does one whose context_management is an array. */
  lemma OtherwiseUntouched(body: Object<Json>)
    ensures Applied(body, false) == body
    ensures ManagementIsArray(body) ==> Applied(body, true) == body
  {
  }

  /** An enabled call leaves a tool-use edit in the list it sends exactly when context_management is not an array. */
  lemma ToolUseEditIsSent(body: Object<Json>)
    ensures HasToolUseEdit(EditsOf(ManagementOf(Applied(body, true)))) <==> !ManagementIsArray(body)
  {
    if !ManagementIsArray(body) {
      AppliedReads(body);
      NewEditIsLast(EditsOf(ManagementOf(body)));
    }
  }

  /** A request whose context_management is an empty array is sent without the edit. */
  lemma ArrayManagementSendsNoEdit()
    ensures !HasToolUseEdit(EditsOf(ManagementOf(Applied([("context_management", Arr([]))], true))))
  {
    ToolUseEditIsSent([("context_management", Arr([]))]);
  }

  /** Applying twice is applying once, down to field order. */
  lemma ApplyTwice(body: Object<Json>, enabled: bool)
    ensures Applied(Applied(body, enabled), enabled) == Applied(body, enabled)
  {
    if enabled && !ManagementIsArray(body) {
      AppliedReads(body);
      var once, management := Applied(body, true), ManagementOf(Applied(body, true));
      NewEditIsLast(EditsOf(ManagementOf(body)));
      var edits := Arr(EditsOf(management));
      GetAfterSet(ManagementOf(body), "edits", edits, "edits");
      SetSame(management, "edits", edits);
      GetAfterSet(body, "context_management", Obj(management), "context_management");
      SetSame(once, "context_management", Obj(management));
    }
  }
}

/** The checks a gate's configuration passes before it is stored. */
module GateValidation {
  import opened Prelude
  import opened GateRow

  const DEFAULT_STATUSES := ["open", "closed", "unavailable"]

  datatype Reason = SameStatus | NonPositiveDelay | UnknownFrom | UnknownTo | EmptyName | BuiltIn | Duplicate

  /** Which entry was refused, and why. */
  datatype Refusal = Refusal(index: nat, reason: Reason)

  predicate Known(status: string, customStatuses: seq<string>) {
    status in DEFAULT_STATUSES || status in customStatuses
  }

  predicate Acceptable(t: Transition, customStatuses: seq<string>) {
    t.from != t.to && t.afterSeconds > 0 && Known(t.from, customStatuses) && Known(t.to, customStatuses)
  }

  method ValidateStatusTransitions(transitions: seq<Transition>, customStatuses: seq<string>)
    returns (refusal: Option<Refusal>)
    ensures refusal.None? <==> forall i :: 0 <= i < |transitions| ==> Acceptable(transitions[i], customStatuses)
    ensures refusal.None? <==> forall i :: 0 <= i < |transitions| ==>
      && transitions[i].from != transitions[i].to && transitions[i].afterSeconds > 0
      && (transitions[i].from in ["open", "closed", "unavailable"] || transitions[i].from in customStatuses)
      && (transitions[i].to in ["open", "closed", "unavailable"] || transitions[i].to in customStatuses)
    ensures refusal.Some? ==>
      var Refusal(i, reason) := refusal.value;
      && i < |transitions|
      && var t := transitions[i];
      && (reason == SameStatus <==> t.from == t.to)
      && (reason == NonPositiveDelay <==> t.from != t.to && t.afterSeconds <= 0)
      && (reason == UnknownFrom <==> t.from != t.to && t.afterSeconds > 0 && !Known(t.from, customStatuses))
      && (reason == UnknownTo <==> t.from != t.to && t.afterSeconds > 0 && Known(t.from, customStatuses))
      && (reason == UnknownTo ==> !Known(t.to, customStatuses))
      && forall j :: 0 <= j < i ==> Acceptable(transitions[j], customStatuses)
  {
    var known: set<string> := {};
    for i := 0 to |DEFAULT_STATUSES|
      invariant known == set s | s in DEFAULT_STATUSES[..i]
    {
      known := known + {DEFAULT_STATUSES[i]};
    }
    assert DEFAULT_STATUSES[..|DEFAULT_STATUSES|] == DEFAULT_STATUSES;
    for i := 0 to |customStatuses|
      invariant known == (set s | s in DEFAULT_STATUSES) + (set s | s in customStatuses[..i])
    {
      known := known + {customStatuses[i]};
    }
    assert customStatuses[..|customStatuses|] == customStatuses;
    for i := 0 to |transitions|
      invariant forall j :: 0 <= j < i ==> Acceptable(transitions[j], customStatuses)
    {
      var t := transitions[i];
      if t.from == t.to { return Some(Refusal(i, SameStatus)); }
      if t.afterSeconds <= 0 { return Some(Refusal(i, NonPositiveDelay)); }
      if t.from !in known { return Some(Refusal(i, UnknownFrom)); }
      if t.to !in known { return Some(Refusal(i, UnknownTo)); }
    }
    return None;
  }

  /** strings.TrimSpace(s) == "", over the ASCII white space. */
  predicate Blank(s: string) {
    forall c :: c in s ==> c in {' ', '\t', '\n', '\r', '\U{0b}', '\U{0c}'}
  }

  /** Text is blank exactly if it holds nothing but spaces and the characters from tab to carriage return. */
  lemma BlankIsWhiteSpace(s: string)
    ensures Blank(s) <==> forall k :: 0 <= k < |s| ==> s[k] as int == 32 || 9 <= s[k] as int <= 13
  {
    forall k | 0 <= k < |s|
      ensures s[k] in s
      ensures s[k] in {' ', '\t', '\n', '\r', '\U{0b}', '\U{0c}'} <==> s[k] as int == 32 || 9 <= s[k] as int <= 13
    {
      assert s[k] == s[k] as int as char;
    }
  }

  /** User-defined statuses are accepted exactly when they are non-blank, new and pairwise different. */
  method ValidateCustomStatuses(statuses: seq<string>) returns (refusal: Option<Refusal>)
    ensures refusal.None? <==>
      && (forall i :: 0 <= i < |statuses| ==> !Blank(statuses[i]) && statuses[i] !in DEFAULT_STATUSES)
      && (forall i, j :: 0 <= i < j < |statuses| ==> statuses[i] != statuses[j])
    ensures refusal.Some? ==>
      var Refusal(i, reason) := refusal.value;
      && i < |statuses|
      && (reason == EmptyName <==> Blank(statuses[i]))
      && (reason == BuiltIn <==> !Blank(statuses[i]) && statuses[i] in DEFAULT_STATUSES)
      && (reason == Duplicate <==> !Blank(statuses[i]) && statuses[i] !in DEFAULT_STATUSES)
      && (reason == Duplicate ==> statuses[i] in statuses[..i])
      && (forall j :: 0 <= j < i ==> !Blank(statuses[j]) && statuses[j] !in DEFAULT_STATUSES)
      && (forall j, k :: 0 <= j < k < i ==> statuses[j] != statuses[k])
  {
    var seen: set<string> := {};
    for i := 0 to |statuses|
      invariant seen == set s | s in statuses[..i]
      invariant forall j :: 0 <= j < i ==> !Blank(statuses[j]) && statuses[j] !in DEFAULT_STATUSES
      invariant forall j, k :: 0 <= j < k < i ==> statuses[j] != statuses[k]
    {
      var s := statuses[i];
      if Blank(s) { return Some(Refusal(i, EmptyName)); }
      if s in DEFAULT_STATUSES { return Some(Refusal(i, BuiltIn)); }
      if s in seen { return Some(Refusal(i, Duplicate)); }
      assert forall j :: 0 <= j < i ==> statuses[j] in statuses[..i];
      seen := seen + {s};
    }
    return None;
  }
}

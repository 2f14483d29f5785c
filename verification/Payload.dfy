/** Reading device payloads: dotted lookups, the metadata projection, and status rules. */
module Payload {
  import opened Prelude

  /** A float64 as far as comparisons can tell. */
  datatype Float = NaN | NegInf | Finite(r: real) | PosInf

  datatype Json =
    | Null | Bool(b: bool) | Num(n: Float) | Str(s: string) | Arr(items: seq<Json>) | Obj(fields: map<string, Json>)

  datatype MetaField = MetaField(key: string, caption: string, unit: string)

  datatype StatusRule = StatusRule(key: string, op: string, value: string, setStatus: string)

  /** The two library conversions that rules depend on: strconv.ParseFloat and fmt's "%v". */
  datatype Formats = Formats(parseFloat: string -> Option<Float>, sprint: Json -> string)

  // ---------- dotted lookups ----------

  function JoinDots(parts: seq<string>): string {
    if |parts| == 0 then "" else if |parts| == 1 then parts[0] else parts[0] + "." + JoinDots(parts[1..])
  }

  /** strings.Split(s, "."): the only dot-free parts that join back to s. */
  function SplitDots(s: string): (parts: seq<string>)
    ensures |parts| > 0 && JoinDots(parts) == s
    ensures forall p :: p in parts ==> '.' !in p
    ensures '.' in s ==> |parts| > 1
  {
    if '.' !in s then [s] else
      var i := IndexOf(s, '.');
      var rest := SplitDots(s[i + 1..]);
      assert s == s[..i] + "." + s[i + 1..];
      assert ([s[..i]] + rest)[1..] == rest;
      [s[..i]] + rest
  }

  function Walk(current: Json, parts: seq<string>): Option<Json> {
    if |parts| == 0 then Some(current)
    else if !current.Obj? || parts[0] !in current.fields then None
    else Walk(current.fields[parts[0]], parts[1..])
  }

  /** What a key means in a payload: the flat key if present, otherwise the dotted path. */
  function Lookup(m: map<string, Json>, key: string): Option<Json> {
    if key in m then Some(m[key])
    else if '.' !in key then None
    else Walk(Obj(m), SplitDots(key))
  }

  method GetNestedValue(m: map<string, Json>, key: string) returns (found: Option<Json>)
    ensures found == Lookup(m, key)
  {
    if key in m {
      return Some(m[key]);
    }
    if '.' !in key {
      return None;
    }
    var parts := SplitDots(key);
    var current := Obj(m);
    var i := 0;
    while i < |parts|
      invariant 0 <= i <= |parts|
      invariant Walk(Obj(m), parts) == Walk(current, parts[i..])
    {
      assert parts[i..][0] == parts[i] && parts[i..][1..] == parts[i + 1..];
      if !current.Obj? || parts[i] !in current.fields {
        return None;
      }
      current := current.fields[parts[i]];
      i := i + 1;
    }
    return Some(current);
  }

  /** A chain of objects that leads from the payload along these keys. */
  ghost predicate IsPath(start: Json, parts: seq<string>, chain: seq<Json>) {
    && |chain| == |parts| + 1 && chain[0] == start
    && forall i :: 0 <= i < |parts| ==>
         chain[i].Obj? && parts[i] in chain[i].fields && chain[i + 1] == chain[i].fields[parts[i]]
  }

  lemma PathGrows(start: Json, parts: seq<string>, chain: seq<Json>)
    requires |parts| > 0 && start.Obj? && parts[0] in start.fields
    requires IsPath(start.fields[parts[0]], parts[1..], chain)
    ensures IsPath(start, parts, [start] + chain)
  {
  }

  lemma PathShrinks(start: Json, parts: seq<string>, chain: seq<Json>)
    requires |parts| > 0 && IsPath(start, parts, chain)
    ensures start.Obj? && parts[0] in start.fields && IsPath(start.fields[parts[0]], parts[1..], chain[1..])
  {
    assert chain[1] == start.fields[parts[0]];
  }

  lemma {:induction false} WalkFollowsAPath(start: Json, parts: seq<string>, v: Json)
    ensures Walk(start, parts) == Some(v) <==> exists chain :: IsPath(start, parts, chain) && chain[|parts|] == v
    decreases |parts|
  {
    if |parts| == 0 {
      assert Walk(start, parts) == Some(v) ==> IsPath(start, parts, [v]);
    } else if start.Obj? && parts[0] in start.fields {
      var next, rest := start.fields[parts[0]], parts[1..];
      WalkFollowsAPath(next, rest, v);
      if chain :| IsPath(next, rest, chain) && chain[|rest|] == v {
        PathGrows(start, parts, chain);
      }
      if chain :| IsPath(start, parts, chain) && chain[|parts|] == v {
        PathShrinks(start, parts, chain);
      }
    }
  }

  /** A key in the payload stands for its value; any other one with dots for what lies at the end of its path, and
      one without for nothing. */
  lemma LookupsFollowThePath(m: map<string, Json>, key: string, v: Json)
    ensures key in m ==> Lookup(m, key) == Some(m[key])
    ensures key !in m && '.' !in key ==> Lookup(m, key) == None
    ensures key !in m && '.' in key ==>
      (Lookup(m, key) == Some(v)
       <==> exists chain :: IsPath(Obj(m), SplitDots(key), chain) && chain[|SplitDots(key)|] == v)
  {
    if key !in m && '.' in key {
      assert Lookup(m, key) == Walk(Obj(m), SplitDots(key));
      WalkFollowsAPath(Obj(m), SplitDots(key), v);
    }
  }

  // ---------- the metadata projection ----------

  function Keys(config: seq<MetaField>): seq<string> {
    seq(|config|, i requires 0 <= i < |config| => config[i].key)
  }

  /** The configured keys that the payload answers, each stored flat under its own name. */
  function Projection(keys: seq<string>, raw: map<string, Json>): map<string, Json> {
    map k | k in keys && Lookup(raw, k).Some? :: Lookup(raw, k).value
  }

  method ExtractMeta(config: seq<MetaField>, raw: map<string, Json>) returns (meta: map<string, Json>)
    ensures meta == Projection(Keys(config), raw)
    ensures forall k :: k in meta <==> Lookup(raw, k).Some? && exists i :: 0 <= i < |config| && config[i].key == k
    ensures forall k :: k in meta ==> Lookup(raw, k) == Some(meta[k])
  {
    meta := map[];
    if |config| == 0 {
      return;
    }
    var keys := Keys(config);
    for i := 0 to |config|
      invariant meta == Projection(keys[..i], raw)
    {
      assert keys[..i + 1] == keys[..i] + [config[i].key];
      var v := GetNestedValue(raw, config[i].key);
      if v.Some? {
        meta := meta[config[i].key := v.value];
      }
    }
    assert keys[..|config|] == keys;
    assert forall i :: 0 <= i < |config| ==> keys[i] == config[i].key;
  }

  /** Looking a configured key up in the stored metadata answers exactly as in the payload. */
  lemma ProjectionKeepsLookups(keys: seq<string>, raw: map<string, Json>, key: string)
    requires key in keys
    ensures Lookup(Projection(keys, raw), key) == Lookup(raw, key)
  {
    var meta := Projection(keys, raw);
    if key !in meta && '.' in key {
      var parts := SplitDots(key);
      var head := parts[0];
      assert head in parts;
      // The first step of the path has no dot, so it can only be a flat key on either side.
      assert head in meta ==> head in raw && meta[head] == raw[head];
      assert Walk(Obj(raw), parts).None?;
    }
  }

  lemma ProjectionIsIdempotent(keys: seq<string>, raw: map<string, Json>)
    ensures Projection(keys, Projection(keys, raw)) == Projection(keys, raw)
  {
    forall k | k in keys
      ensures Lookup(Projection(keys, raw), k) == Lookup(raw, k)
    {
      ProjectionKeepsLookups(keys, raw, k);
    }
  }

  // ---------- status rules ----------

  predicate Less(a: Float, b: Float) {
    match (a, b)
    case (NaN, _) => false
    case (_, NaN) => false
    case (Finite(x), Finite(y)) => x < y
    case (NegInf, _) => b != NegInf
    case (_, PosInf) => a != PosInf
    case _ => false
  }

  predicate Same(a: Float, b: Float) {
    a == b && !a.NaN?
  }

  predicate CompareFloats(op: string, a: Float, b: Float) {
    match op
    case "eq" => Same(a, b)
    case "ne" => !Same(a, b)
    case "gt" => Less(b, a)
    case "gte" => Less(b, a) || Same(a, b)
    case "lt" => Less(a, b)
    case "lte" => Less(a, b) || Same(a, b)
    case _ => false
  }

  predicate CompareTexts(op: string, a: string, b: string) {
    (op == "eq" && a == b) || (op == "ne" && a != b)
  }

  /** The number a value is compared as, if it has one. */
  function Numeric(f: Formats, actual: Json): Option<Float> {
    match actual
    case Num(n) => Some(n)
    case Str(s) => f.parseFloat(s)
    case _ => None
  }

  predicate RuleMatches(f: Formats, op: string, actual: Json, threshold: string) {
    match Numeric(f, actual)
    case None => CompareTexts(op, if actual.Str? then actual.s else f.sprint(actual), threshold)
    case Some(a) =>
      match f.parseFloat(threshold)
      case None => false
      case Some(b) => CompareFloats(op, a, b)
  }

  /** The operators partition comparable numbers: exactly one of lt, eq, gt holds unless a NaN is involved. */
  lemma OperatorsAreATrichotomy(f: Formats, actual: Json, threshold: string)
    requires Numeric(f, actual).Some? && f.parseFloat(threshold).Some?
    ensures var lt, eq, gt := RuleMatches(f, "lt", actual, threshold), RuleMatches(f, "eq", actual, threshold),
                              RuleMatches(f, "gt", actual, threshold);
            var nan := Numeric(f, actual).value.NaN? || f.parseFloat(threshold).value.NaN?;
            && !(lt && eq) && !(eq && gt) && !(lt && gt)
            && (lt || eq || gt <==> !nan)
            && (RuleMatches(f, "ne", actual, threshold) <==> !eq)
            && (RuleMatches(f, "lte", actual, threshold) <==> lt || eq)
            && (RuleMatches(f, "gte", actual, threshold) <==> gt || eq)
  {
    var a, b := Numeric(f, actual).value, f.parseFloat(threshold).value;
    assert Less(a, b) || Same(a, b) || Less(b, a) <==> !(a.NaN? || b.NaN?);
  }

  /** On finite numbers, the payload's own or read from text, each operator is the comparison of reals it is named
      after, and there is no other operator. */
  lemma OperatorsCompareReals(f: Formats, op: string, actual: Json, threshold: string, x: real, y: real)
    requires actual == Num(Finite(x)) || (actual.Str? && f.parseFloat(actual.s) == Some(Finite(x)))
    requires f.parseFloat(threshold) == Some(Finite(y))
    ensures RuleMatches(f, "eq", actual, threshold) <==> x == y
    ensures RuleMatches(f, "ne", actual, threshold) <==> x != y
    ensures RuleMatches(f, "gt", actual, threshold) <==> x > y
    ensures RuleMatches(f, "gte", actual, threshold) <==> x >= y
    ensures RuleMatches(f, "lt", actual, threshold) <==> x < y
    ensures RuleMatches(f, "lte", actual, threshold) <==> x <= y
    ensures RuleMatches(f, op, actual, threshold) ==> op in ["eq", "ne", "gt", "gte", "lt", "lte"]
  {
    assert op in ["eq", "ne", "gt", "gte", "lt", "lte"] <==>
      op == "eq" || op == "ne" || op == "gt" || op == "gte" || op == "lt" || op == "lte";
  }

  /** The infinities lie beyond every finite number and differ; a NaN is unequal to everything and in no order. */
  lemma InfinitiesLieOutside(f: Formats, actual: Json, threshold: string, a: Float, b: Float)
    requires actual == Num(a) || (actual.Str? && f.parseFloat(actual.s) == Some(a))
    requires f.parseFloat(threshold) == Some(b)
    ensures a == NegInf && (b.Finite? || b == PosInf) ==> RuleMatches(f, "lt", actual, threshold)
    ensures a == PosInf && (b.Finite? || b == NegInf) ==> RuleMatches(f, "gt", actual, threshold)
    ensures a.Finite? && b == PosInf ==> RuleMatches(f, "lt", actual, threshold)
    ensures a.Finite? && b == NegInf ==> RuleMatches(f, "gt", actual, threshold)
    ensures a == b && (a == NegInf || a == PosInf) ==> RuleMatches(f, "eq", actual, threshold)
    ensures a.NaN? || b.NaN? ==>
      && RuleMatches(f, "ne", actual, threshold) && !RuleMatches(f, "eq", actual, threshold)
      && !RuleMatches(f, "lt", actual, threshold) && !RuleMatches(f, "lte", actual, threshold)
      && !RuleMatches(f, "gt", actual, threshold) && !RuleMatches(f, "gte", actual, threshold)
  {
  }

  /** Text that is no number, and values that are neither, can only be equal or unequal to the threshold, as text; and
      a number matches nothing whose threshold is no number. */
  lemma OtherValuesCompareAsText(f: Formats, op: string, actual: Json, threshold: string)
    ensures actual.Str? && f.parseFloat(actual.s).None? ==>
      (RuleMatches(f, op, actual, threshold)
       <==> (op == "eq" && actual.s == threshold) || (op == "ne" && actual.s != threshold))
    ensures !actual.Str? && !actual.Num? ==>
      (RuleMatches(f, op, actual, threshold)
       <==> (op == "eq" && f.sprint(actual) == threshold) || (op == "ne" && f.sprint(actual) != threshold))
    ensures (actual.Num? || (actual.Str? && f.parseFloat(actual.s).Some?)) && f.parseFloat(threshold).None? ==>
      !RuleMatches(f, op, actual, threshold)
  {
  }

  predicate Applies(f: Formats, rule: StatusRule, meta: map<string, Json>) {
    var v := Lookup(meta, rule.key);
    v.Some? && RuleMatches(f, rule.op, v.value, rule.value)
  }

  /** The i-th rule is the first whose key is present and whose comparison holds. */
  ghost predicate Decides(f: Formats, rules: seq<StatusRule>, meta: map<string, Json>, i: int) {
    && 0 <= i < |rules|
    && Lookup(meta, rules[i].key).Some?
    && RuleMatches(f, rules[i].op, Lookup(meta, rules[i].key).value, rules[i].value)
    && forall j :: 0 <= j < i ==>
         var v := Lookup(meta, rules[j].key); v.None? || !RuleMatches(f, rules[j].op, v.value, rules[j].value)
  }

  function Override(f: Formats, rules: seq<StatusRule>, meta: map<string, Json>): Option<string> {
    if |rules| == 0 then None
    else if Applies(f, rules[0], meta) then Some(rules[0].setStatus)
    else Override(f, rules[1..], meta)
  }

  method EvaluateStatusRules(f: Formats, rules: seq<StatusRule>, meta: map<string, Json>)
    returns (status: Option<string>)
    ensures status == Override(f, rules, meta)
    ensures status.None? <==> forall i :: 0 <= i < |rules| ==>
      var v := Lookup(meta, rules[i].key); v.None? || !RuleMatches(f, rules[i].op, v.value, rules[i].value)
    ensures status.Some? ==> exists i :: Decides(f, rules, meta, i) && status == Some(rules[i].setStatus)
  {
    for i := 0 to |rules|
      invariant forall j :: 0 <= j < i ==> !Applies(f, rules[j], meta)
      invariant Override(f, rules, meta) == Override(f, rules[i..], meta)
    {
      assert rules[i..][0] == rules[i] && rules[i..][1..] == rules[i + 1..];
      var v := GetNestedValue(meta, rules[i].key);
      if v.None? {
        continue;
      }
      if RuleMatches(f, rules[i].op, v.value, rules[i].value) {
        assert Decides(f, rules, meta, i);
        return Some(rules[i].setStatus);
      }
    }
    return None;
  }

  /** Rules over configured keys decide the same on the stored metadata as on the whole payload. */
  lemma {:induction false} RulesAgreeOnMetadata(f: Formats, keys: seq<string>, rules: seq<StatusRule>,
                                                raw: map<string, Json>)
    requires forall i :: 0 <= i < |rules| ==> rules[i].key in keys
    ensures Override(f, rules, Projection(keys, raw)) == Override(f, rules, raw)
  {
    if |rules| > 0 {
      ProjectionKeepsLookups(keys, raw, rules[0].key);
      RulesAgreeOnMetadata(f, keys, rules[1..], raw);
    }
  }

  // ---------- the status field ----------

  /** How a device's own status field and values translate; no values means they are taken as they are. */
  datatype PayloadMapping = PayloadMapping(format: string, field: string, values: map<string, string>)

  datatype MappingError = UnsupportedFormat | FieldMissing | ValueUnmapped

  function ApplyMapping(f: Formats, mapping: PayloadMapping, raw: map<string, Json>): Result<string, MappingError> {
    if mapping.format != "" && mapping.format != "json" then Err(UnsupportedFormat) else
      var found := Lookup(raw, mapping.field);
      if found.None? then Err(FieldMissing) else
        var text := f.sprint(found.value);
        if mapping.values == map[] then Ok(text)
        else if text in mapping.values then Ok(mapping.values[text])
        else Err(ValueUnmapped)
  }

  /** What a report ends as: the status its rules choose on the stored metadata, otherwise its mapped field. */
  function FinalStatus(f: Formats, mapping: PayloadMapping, keys: seq<string>, rules: seq<StatusRule>,
                       raw: map<string, Json>)
    : Result<string, MappingError>
  {
    var mapped := ApplyMapping(f, mapping, raw);
    var override := Override(f, rules, Projection(keys, raw));
    if mapped.Ok? && override.Some? then Ok(override.value) else mapped
  }

  /** With the status field configured, the outcome is the same whether the payload or its stored metadata is
      processed. */
  lemma MetadataStandsForThePayload(f: Formats, mapping: PayloadMapping, keys: seq<string>, rules: seq<StatusRule>,
                                    raw: map<string, Json>)
    requires mapping.field in keys
    ensures FinalStatus(f, mapping, keys, rules, Projection(keys, raw)) == FinalStatus(f, mapping, keys, rules, raw)
  {
    ProjectionKeepsLookups(keys, raw, mapping.field);
    ProjectionIsIdempotent(keys, raw);
  }

  /** A mapping takes the status field's text, translated if there are translations, and says what is missing. */
  lemma MappingsTranslateTheField(f: Formats, mapping: PayloadMapping, raw: map<string, Json>)
    ensures
      var r, found := ApplyMapping(f, mapping, raw), Lookup(raw, mapping.field);
      && (r == Err(UnsupportedFormat) <==> mapping.format !in ["", "json"])
      && (mapping.format in ["", "json"] ==>
            && (r == Err(FieldMissing) <==> found.None?)
            && (found.Some? && mapping.values == map[] ==> r == Ok(f.sprint(found.value)))
            && (found.Some? && mapping.values != map[] ==>
                  if f.sprint(found.value) in mapping.values then r == Ok(mapping.values[f.sprint(found.value)])
                  else r == Err(ValueUnmapped)))
  {
    assert mapping.format in ["", "json"] <==> mapping.format == "" || mapping.format == "json";
  }
}

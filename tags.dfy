/** Struct-tag interpretation: boolean tags, the effective wire name with its
    protobuf > json precedence, the per-field metadata the walker acts on, and
    the property name of a oneof accessor. */
module Tags {
  import opened Types
  import opened Schemas
  import opened GoStrings

  /** boolTag: "true" and "false" mean what they say, an absent or empty tag
      means false, and anything else is a fatal configuration error. */
  function BoolTag(f: Field, key: string): (r: Result<bool>)
    ensures r == Ok(true) <==> TagGet(f.tag, key) == "true"
    ensures r == Ok(false) <==> TagGet(f.tag, key) in {"", "false"}
    ensures r.Fail? <==> TagGet(f.tag, key) !in {"", "true", "false"}
    ensures r.Fail? ==> r.abort == InvalidBoolTag(key, f.name, TagGet(f.tag, key))
  {
    var v := TagGet(f.tag, key);
    if v != "" then
      if v == "true" then Ok(true)
      else if v == "false" then Ok(false)
      else Fail(InvalidBoolTag(key, f.name, v))
    else Ok(false)
  }

  /** A tag written by strconv.FormatBool reads back as the same boolean, and
      so does an absent tag as false. */
  lemma BoolTagRoundTrip(f: Field, key: string, b: bool)
    ensures BoolTag(f.(tag := f.tag[key := if b then "true" else "false"]), key) == Ok(b)
    ensures key !in f.tag ==> BoolTag(f, key) == Ok(false)
  {
  }

  /** A boolean tag consulted only when present (Tag.Lookup, then boolTag). */
  function LookupBoolTag(f: Field, key: string): (r: Result<Option<bool>>)
    ensures key !in f.tag ==> r == Ok(None)
    ensures key in f.tag ==> (r.Ok? <==> BoolTag(f, key).Ok?)
    ensures key in f.tag && r.Ok? ==> r.value == Some(BoolTag(f, key).value)
  {
    if key in f.tag then
      match BoolTag(f, key)
      case Fail(e) => Fail(e)
      case Ok(b) => Ok(Some(b))
    else Ok(None)
  }

  predicate IsAlnum(c: char) {
    ('a' <= c <= 'z') || ('A' <= c <= 'Z') || ('0' <= c <= '9')
  }

  /** The end of the run of [a-zA-Z0-9] characters that starts at `k`. */
  function AlnumEnd(s: string, k: nat): (e: nat)
    requires k <= |s|
    ensures k <= e <= |s|
    ensures forall i :: k <= i < e ==> IsAlnum(s[i])
    ensures e < |s| ==> !IsAlnum(s[e])
    decreases |s| - k
  {
    if k < |s| && IsAlnum(s[k]) then AlnumEnd(s, k + 1) else k
  }

  /** `name=([a-zA-Z0-9]+),` matches starting at `p`. */
  predicate NameAt(s: string, p: nat) {
    && p + 5 <= |s|
    && s[p..p + 5] == "name="
    && AlnumEnd(s, p + 5) > p + 5
    && AlnumEnd(s, p + 5) < |s|
    && s[AlnumEnd(s, p + 5)] == ','
  }

  /** The last position before `p` where NameAt holds. */
  function LastNameAt(s: string, p: nat): (r: Option<nat>)
    requires p <= |s|
    ensures r.Some? ==> r.value < p && NameAt(s, r.value)
    ensures r.Some? ==> forall q :: r.value < q < p ==> !NameAt(s, q)
    ensures r.None? ==> forall q :: 0 <= q < p ==> !NameAt(s, q)
  {
    if p == 0 then None
    else if NameAt(s, p - 1) then Some(p - 1)
    else LastNameAt(s, p - 1)
  }

  /** The first submatch of ^.*name\=([a-zA-Z0-9]+)\,.*$ on a protobuf tag, or
      None when the expression does not match. `.` does not match a newline,
      so no text with one matches; the greedy leading `.*` makes the match the
      rightmost occurrence. */
  function ProtobufName(tag: string): (r: Option<string>)
    ensures r.None? <==> '\n' in tag || forall q :: 0 <= q < |tag| ==> !NameAt(tag, q)
    ensures r.Some? ==> exists p: nat :: NameAt(tag, p) && r.value == tag[p + 5..AlnumEnd(tag, p + 5)]
    ensures r.Some? ==> |r.value| > 0 && forall i :: 0 <= i < |r.value| ==> IsAlnum(r.value[i])
  {
    if '\n' in tag then None
    else match LastNameAt(tag, |tag|)
      case None => None
      case Some(p) => Some(tag[p + 5..AlnumEnd(tag, p + 5)])
  }

  /** The effective property name of a field and whether it starts out
      required, before the `required` override: a protobuf tag wins over a
      json tag, which wins over the Go field name. */
  function WireName(f: Field): (r: Result<(string, bool)>)
    ensures TagGet(f.tag, "protobuf") != "" ==>
      (r.Ok? <==> ProtobufName(TagGet(f.tag, "protobuf")).Some?)
    ensures TagGet(f.tag, "protobuf") != "" && r.Ok? ==>
      && r.value.0 == ProtobufName(TagGet(f.tag, "protobuf")).value
      && (r.value.1 <==> "oneof" !in Split(TagGet(f.tag, "protobuf"), ','))
    ensures TagGet(f.tag, "protobuf") == "" && TagGet(f.tag, "json") != "" ==>
      && r.Ok?
      && r.value.0 == (if Split(TagGet(f.tag, "json"), ',')[0] != "" then Split(TagGet(f.tag, "json"), ',')[0] else f.name)
      && (r.value.1 <==> !Contains(TagGet(f.tag, "json"), "omitempty"))
    ensures TagGet(f.tag, "protobuf") == "" && TagGet(f.tag, "json") == "" ==> r == Ok((f.name, true))
    ensures r.Fail? ==> r.abort == ProtobufNameNoMatch(f.name, TagGet(f.tag, "protobuf"))
  {
    var pb := TagGet(f.tag, "protobuf");
    var js := TagGet(f.tag, "json");
    if pb != "" then
      match ProtobufName(pb)
      case None => Fail(ProtobufNameNoMatch(f.name, pb))
      case Some(n) => Ok((if n != "" then n else f.name, "oneof" !in Split(pb, ',')))
    else if js != "" then
      var first := Split(js, ',')[0];
      Ok((if first != "" then first else f.name, !Contains(js, "omitempty")))
    else Ok((f.name, true))
  }

  /** Once a field has a protobuf tag, its json tag plays no part in naming. */
  lemma ProtobufTagWins(f: Field, js: string)
    requires TagGet(f.tag, "protobuf") != ""
    ensures WireName(f.(tag := f.tag["json" := js])) == WireName(f)
  {
    assert TagGet(f.(tag := f.tag["json" := js]).tag, "protobuf") == TagGet(f.tag, "protobuf");
  }

  /** What the walker does with one (unshadowed, non-oneof) field. */
  datatype FieldMeta =
    | Ignored                     // effective name "-"
    | Hidden                      // hidden:"true"
    | Documented(name: string, required: bool, dependents: Option<seq<string>>)

  /** The tag rules of one struct field, in the order the walker applies them:
      the effective name, "-" to ignore, the `required` override, `hidden`, and
      the comma-separated `dependentRequired` list. */
  function ParseField(f: Field): (r: Result<FieldMeta>)
    ensures WireName(f).Fail? ==> r == Fail(WireName(f).abort)
    ensures r == Ok(Ignored) <==> WireName(f).Ok? && WireName(f).value.0 == "-"
    ensures r == Ok(Hidden) ==> TagGet(f.tag, "hidden") == "true"
    ensures r.Ok? && r.value.Documented? ==>
      && WireName(f).Ok? && WireName(f).value.0 == r.value.name && r.value.name != "-"
      && TagGet(f.tag, "hidden") in {"", "false"}
      && r.value.required == (if "required" in f.tag then TagGet(f.tag, "required") == "true" else WireName(f).value.1)
      && (r.value.dependents.Some? <==> exists i :: 0 <= i < |TagGet(f.tag, "dependentRequired")| && !IsSpace(TagGet(f.tag, "dependentRequired")[i]))
      && (r.value.dependents.Some? ==> Join(r.value.dependents.value, ',') == TagGet(f.tag, "dependentRequired"))
      && (r.value.dependents.Some? ==> forall i :: 0 <= i < |r.value.dependents.value| ==> ',' !in r.value.dependents.value[i])
    ensures WireName(f).Ok? && WireName(f).value.0 != "-" && "required" in f.tag ==>
      (TagGet(f.tag, "required") !in {"", "true", "false"} ==> r == Fail(InvalidBoolTag("required", f.name, TagGet(f.tag, "required"))))
    ensures WireName(f).Ok? && WireName(f).value.0 != "-" && TagGet(f.tag, "hidden") !in {"", "true", "false"} ==> r.Fail?
  {
    match WireName(f)
    case Fail(e) => Fail(e)
    case Ok(w) =>
      if w.0 == "-" then Ok(Ignored)
      else
        match (if "required" in f.tag then BoolTag(f, "required") else Ok(w.1))
        case Fail(e) => Fail(e)
        case Ok(required) =>
          match BoolTag(f, "hidden")
          case Fail(e) => Fail(e)
          case Ok(hidden) =>
            if hidden then Ok(Hidden)
            else
              var dr := TagGet(f.tag, "dependentRequired");
              TrimSpaceEmpty(dr);
              JoinSplit(dr, ',');
              Ok(Documented(w.0, required, if TrimSpace(dr) != "" then Some(Split(dr, ',')) else None))
  }

  /** A field's tags fail to parse exactly when its name does, or when a
      field not named "-" has a malformed `required` (when present) or
      `hidden` tag; a well-formed `hidden:"true"` makes the field Hidden. */
  lemma ParseFieldOutcome(f: Field)
    ensures ParseField(f).Fail? <==>
      || WireName(f).Fail?
      || (&& WireName(f).value.0 != "-"
          && (|| ("required" in f.tag && TagGet(f.tag, "required") !in {"", "true", "false"})
              || TagGet(f.tag, "hidden") !in {"", "true", "false"}))
    ensures ParseField(f).Ok? && WireName(f).Ok? && WireName(f).value.0 != "-" && TagGet(f.tag, "hidden") == "true" ==>
      ParseField(f) == Ok(Hidden)
  {
  }

  /** unicode.ToLower on the letters of Latin-1: the capitals A-Z and
      U+00C0-U+00DE (except U+00D7) map to the letter 32 code points above;
      every other character is its own lower case here. */
  function ToLower(c: char): char {
    if ('A' <= c <= 'Z') || ('\U{00C0}' <= c <= '\U{00DE}' && c != '\U{00D7}') then (c as int + 32) as char
    else c
  }

  predicate IsUpper(c: char) {
    ToLower(c) != c
  }

  /** getName: drop the "Get" prefix of an accessor and lower-case the first
      letter of what remains. */
  function GetName(m: string): (r: string)
    requires HasPrefix(m, "Get")
    ensures |r| == |m| - 3
    ensures |r| > 0 ==> r[0] == ToLower(m[3]) && r[1..] == m[4..]
  {
    var s := m[3..];
    if |s| == 0 then s
    else
      var lc := ToLower(s[0]);
      if s[0] == lc then s else [lc] + s[1..]
  }

  /** Two accessors whose suffixes start with a capital letter have the same
      property name only when they are the same accessor. */
  lemma GetNameInjective(x: string, y: string)
    requires |x| > 0 && |y| > 0 && IsUpper(x[0]) && IsUpper(y[0])
    requires GetName("Get" + x) == GetName("Get" + y)
    ensures x == y
  {
    var gx, gy := GetName("Get" + x), GetName("Get" + y);
    assert gx[0] == ToLower(x[0]) && gy[0] == ToLower(y[0]);
    assert x[0] == y[0];
    assert gx[1..] == x[1..] && gy[1..] == y[1..];
    assert x == [x[0]] + x[1..] && y == [y[0]] + y[1..];
  }

  /** An accessor spelt with a lower-case letter collides with its capitalised
      twin: both become the same property name. */
  lemma GetNameCollision(x: string)
    requires |x| > 0 && IsUpper(x[0])
    ensures GetName("Get" + x) == GetName("Get" + [ToLower(x[0])] + x[1..])
  {
    var y := [ToLower(x[0])] + x[1..];
    assert ("Get" + y)[3..] == y;
    assert ("Get" + x)[3..] == x;
    assert ToLower(ToLower(x[0])) == ToLower(x[0]);
  }
}

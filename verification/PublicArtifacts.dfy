/** Redaction of public artifacts: a recursive copy of a JSON tree, the safety assertion that
    the copy must pass, and what the copy keeps. */
module PublicArtifacts {
  import opened Common
  import opened MemoryText

  datatype Json = Null | Bool(b: bool) | Num(n: real) | Str(s: string) | Arr(items: seq<Json>) | Obj(fields: seq<Field>)
  datatype Field = Field(key: string, value: Json)

  const UNSAFE_KEYS: set<string> := {
    "attacker_prompt", "judge_reasoning", "prompt", "probe_seed_examples", "prompt_body", "raw", "raw_prompt",
    "reasoning", "target_echo", "target_response", "target_system_prompt"
  }

  const TAG: string := "[redacted:"

  function Marker(key: string): string {
    TAG + key + "]"
  }

  predicate HasPublicValue(v: Json) {
    match v
    case Null => false
    case Str(s) => Strip(s) != "" && !(TAG <= Strip(s))
    case Arr(items) => items != []
    case Obj(fields) => fields != []
    case _ => true
  }

  // ---------- the tree ----------

  /** One step from a value to a part of it. */
  datatype Step = Key(key: string) | Index(i: nat)

  function Count(p: Json): (n: nat) {
    match p
    case Arr(items) => |items|
    case Obj(fields) => |fields|
    case _ => 0
  }

  function Child(p: Json, i: nat): (c: Json)
    requires i < Count(p)
    ensures c < p
  {
    match p
    case Arr(items) => items[i]
    case Obj(fields) => assert fields[i] < p; fields[i].value
  }

  function StepTo(p: Json, i: nat): Step
    requires i < Count(p)
  {
    match p
    case Arr(_) => Index(i)
    case Obj(fields) => Key(fields[i].key)
  }

  /** A dictionary holds each key once, at every level. */
  predicate UniqueKeys(p: Json) {
    && (forall i :: 0 <= i < Count(p) ==> UniqueKeys(Child(p, i)))
    && (p.Obj? ==> forall i, j :: 0 <= i < j < |p.fields| ==> p.fields[i].key != p.fields[j].key)
  }

  /** The part of a value at the end of a path of steps. */
  ghost predicate Reaches(p: Json, path: seq<Step>, v: Json)
    decreases |path|
  {
    if path == [] then v == p
    else exists i: nat :: i < Count(p) && ReachesBy(p, i, path, v)
  }

  ghost predicate ReachesBy(p: Json, i: nat, path: seq<Step>, v: Json)
    requires path != [] && i < Count(p)
    decreases |path|, 0
  {
    StepTo(p, i) == path[0] && Reaches(Child(p, i), path[1..], v)
  }

  // ---------- redaction and the assertion ----------

  /** The part holds a raw value under an unsafe key. */
  predicate Leaks(p: Json, i: nat)
    requires i < Count(p)
  {
    p.Obj? && p.fields[i].key in UNSAFE_KEYS && HasPublicValue(p.fields[i].value)
  }

  function RedactValue(key: string, value: Json): Json
    decreases value, 1
  {
    if key == "raw" && value.Obj? then Obj([])
    else if key in UNSAFE_KEYS && HasPublicValue(value) then Str(Marker(key))
    else Redact(value)
  }

  function Redact(p: Json): (r: Json)
    ensures Count(r) == Count(p)
    decreases p, 0
  {
    match p
    case Arr(items) => Arr(seq(|items|, i requires 0 <= i < |items| => Redact(items[i])))
    case Obj(fields) =>
      Obj(seq(|fields|, i requires 0 <= i < |fields| =>
        assert fields[i] < p; Field(fields[i].key, RedactValue(fields[i].key, fields[i].value))))
    case _ => p
  }

  lemma RedactPart(p: Json, i: nat)
    requires i < Count(p)
    ensures StepTo(Redact(p), i) == StepTo(p, i)
    ensures Child(Redact(p), i) == if p.Obj? then RedactValue(p.fields[i].key, Child(p, i)) else Redact(Child(p, i))
  {
  }

  predicate Safe(p: Json) {
    forall i :: 0 <= i < Count(p) ==> !Leaks(p, i) && Safe(Child(p, i))
  }

  lemma MarkerHidden(key: string)
    ensures !HasPublicValue(Str(Marker(key)))
  {
    var m := Marker(key);
    assert m[0] == '[' && m[|m| - 1] == ']';
    assert Stripped(m);
    StripIdempotent(m);
    assert TAG <= m;
  }

  /** Every redacted copy passes the assertion. */
  lemma {:induction false} RedactedIsSafe(p: Json)
    ensures Safe(Redact(p))
    decreases p
  {
    var r := Redact(p);
    forall i | 0 <= i < Count(r)
      ensures !Leaks(r, i) && Safe(Child(r, i))
    {
      RedactedIsSafe(Child(p, i));
      RedactPart(p, i);
      if p.Obj? { MarkerHidden(p.fields[i].key); RedactedHidden(p.fields[i].value); }
    }
  }

  /** Redaction does not turn a value without public content into one that has some. */
  lemma RedactedHidden(v: Json)
    ensures HasPublicValue(Redact(v)) == HasPublicValue(v)
  {
  }

  lemma SameParts(p: Json, r: Json)
    requires p.Arr? == r.Arr? && p.Obj? == r.Obj? && Count(p) == Count(r) && (Count(p) == 0 ==> p == r)
    requires forall i :: 0 <= i < Count(p) ==> Child(r, i) == Child(p, i) && StepTo(r, i) == StepTo(p, i)
    ensures p == r
  {
    if p.Arr? {
      forall i | 0 <= i < |p.items| ensures p.items[i] == r.items[i] {
        assert Child(r, i) == Child(p, i);
      }
      assert p.items == r.items;
    } else if p.Obj? {
      forall i | 0 <= i < |p.fields| ensures p.fields[i] == r.fields[i] {
        assert Child(r, i) == Child(p, i) && StepTo(r, i) == StepTo(p, i);
      }
      assert p.fields == r.fields;
    }
  }

  /** A payload is left unchanged exactly when it passes the assertion. */
  lemma {:induction false} UnchangedIffSafe(p: Json)
    ensures Redact(p) == p <==> Safe(p)
    decreases p
  {
    var r := Redact(p);
    forall i | 0 <= i < Count(p)
      ensures Child(r, i) == Child(p, i) <==> !Leaks(p, i) && Safe(Child(p, i))
    {
      UnchangedIffSafe(Child(p, i));
      RedactPart(p, i);
      if p.Obj? { MarkerHidden(p.fields[i].key); }
    }
    if Safe(p) {
      forall i | 0 <= i < Count(p) ensures StepTo(r, i) == StepTo(p, i) { RedactPart(p, i); }
      assert forall i :: 0 <= i < Count(p) ==> Child(r, i) == Child(p, i) && StepTo(r, i) == StepTo(p, i);
      SameParts(p, r);
    } else {
      var i :| 0 <= i < Count(p) && (Leaks(p, i) || !Safe(Child(p, i)));
      assert Child(r, i) != Child(p, i);
    }
  }

  /** Redacting twice is redacting once. */
  lemma RedactTwice(p: Json)
    ensures Redact(Redact(p)) == Redact(p)
  {
    RedactedIsSafe(p);
    UnchangedIffSafe(Redact(p));
  }

  /** What becomes of a field: under another key its value is redacted part by part; under an unsafe
      key an empty or blank value and an earlier marker stay, a raw object is emptied, and any other
      value gives way to the marker that names the key. */
  lemma FieldFate(p: Json, i: nat)
    requires p.Obj? && i < |p.fields|
    ensures Redact(p).Obj? && |Redact(p).fields| == |p.fields| && Redact(p).fields[i].key == p.fields[i].key
    ensures var key, v, w := p.fields[i].key, p.fields[i].value, Redact(p).fields[i].value;
            w == if key == "raw" && v.Obj? then Obj([])
                 else if key !in UNSAFE_KEYS || v == Null || v == Arr([]) || v == Obj([]) then Redact(v)
                 else if v.Str? && (Strip(v.s) == "" || "[redacted:" <= Strip(v.s)) then v
                 else Str("[redacted:" + key + "]")
  {
    hide Strip;
    RedactPart(p, i);
    assert StepTo(Redact(p), i) == StepTo(p, i);
  }

  // ---------- what is kept ----------

  /** The path leads through no leaking field. */
  ghost predicate Clear(p: Json, path: seq<Step>)
    decreases |path|
  {
    path == [] || forall i: nat :: i < Count(p) && StepTo(p, i) == path[0] ==> !Leaks(p, i) && Clear(Child(p, i), path[1..])
  }

  /** Whatever a clear path reaches, the copy has its redaction at the same path: fields,
      positions and order stay, and so does every harmless leaf. */
  lemma {:induction false} ClearPathsKept(p: Json, path: seq<Step>, v: Json)
    requires Reaches(p, path, v) && Clear(p, path)
    ensures Reaches(Redact(p), path, Redact(v))
    decreases |path|
  {
    if path == [] {
    } else {
      var i: nat :| i < Count(p) && ReachesBy(p, i, path, v);
      ClearPathsKept(Child(p, i), path[1..], v);
      RedactPart(p, i);
      assert ReachesBy(Redact(p), i, path, Redact(v));
    }
  }

  /** The declarative meaning of safety: no path ends in an unsafe key with a raw value. */
  ghost predicate RawAt(p: Json, path: seq<Step>, key: string, v: Json) {
    Reaches(p, path + [Key(key)], v) && key in UNSAFE_KEYS && HasPublicValue(v)
  }

  lemma LeafReaches(p: Json, path: seq<Step>, v: Json)
    requires Reaches(p, path, v) && (Count(p) == 0 || path == [])
    ensures v == p && path == []
  {
  }

  lemma {:induction false} SafeHidesAll(p: Json, path: seq<Step>, key: string, v: Json)
    requires Safe(p)
    ensures !RawAt(p, path, key, v)
    decreases |path|
  {
    var full := path + [Key(key)];
    if RawAt(p, path, key, v) {
      assert full != [] && Reaches(p, full, v);
      var i: nat :| i < Count(p) && ReachesBy(p, i, full, v);
      if path != [] {
        assert full[1..] == path[1..] + [Key(key)];
        SafeHidesAll(Child(p, i), path[1..], key, v);
      } else {
        assert full[1..] == [];
        LeafReaches(Child(p, i), [], v);
      }
      assert false;
    }
  }

  lemma {:induction false} UnsafeShows(p: Json) returns (path: seq<Step>, key: string, v: Json)
    requires !Safe(p)
    ensures RawAt(p, path, key, v)
    decreases p
  {
    var i :| 0 <= i < Count(p) && (Leaks(p, i) || !Safe(Child(p, i)));
    if Leaks(p, i) {
      path, key, v := [], p.fields[i].key, p.fields[i].value;
      LeakIsRaw(p, i);
    } else {
      path, key, v := UnsafeShows(Child(p, i));
      RawBelow(p, i, path, key, v);
      path := [StepTo(p, i)] + path;
    }
  }

  /** The assertion accepts a payload exactly when no path reaches a raw value under an unsafe key. */
  lemma SafeIffNothingRaw(p: Json)
    ensures Safe(p) <==> forall path, key, v :: !RawAt(p, path, key, v)
  {
    if Safe(p) {
      forall path, key, v
        ensures !RawAt(p, path, key, v)
      {
        SafeHidesAll(p, path, key, v);
      }
    } else {
      var path, key, v := UnsafeShows(p);
    }
  }

  lemma LeakIsRaw(p: Json, i: nat)
    requires i < Count(p) && Leaks(p, i)
    ensures RawAt(p, [], p.fields[i].key, p.fields[i].value)
  {
    var key, v := p.fields[i].key, p.fields[i].value;
    var path: seq<Step> := [];
    assert (path + [Key(key)])[1..] == [];
    assert ReachesBy(p, i, path + [Key(key)], v);
  }

  /** No text of the copy is new but the markers: every string it holds was at the same path. */
  lemma {:induction false} NothingInvented(p: Json, path: seq<Step>, s: string)
    requires Reaches(Redact(p), path, Str(s))
    ensures Reaches(p, path, Str(s))
         || (path != [] && path[|path| - 1].Key? && path[|path| - 1].key in UNSAFE_KEYS && s == Marker(path[|path| - 1].key))
    decreases |path|
  {
    if path == [] {
    } else {
      var r := Redact(p);
      var i: nat :| i < Count(r) && ReachesBy(r, i, path, Str(s));
      RedactPart(p, i);
      if Child(r, i) == Redact(Child(p, i)) {
        NothingInvented(Child(p, i), path[1..], s);
        if Reaches(Child(p, i), path[1..], Str(s)) { assert ReachesBy(p, i, path, Str(s)); }
      } else {
        LeafReaches(Child(r, i), path[1..], Str(s));
      }
    }
  }

  // ---------- the loops ----------

  /** redacted[key] = value */
  function Put(fields: seq<Field>, key: string, value: Json): seq<Field> {
    if fields == [] then [Field(key, value)]
    else if fields[0].key == key then [Field(key, value)] + fields[1..]
    else [fields[0]] + Put(fields[1..], key, value)
  }

  lemma {:induction false} PutNew(fields: seq<Field>, key: string, value: Json)
    requires forall k :: 0 <= k < |fields| ==> fields[k].key != key
    ensures Put(fields, key, value) == fields + [Field(key, value)]
  {
    if fields == [] {
    } else {
      PutNew(fields[1..], key, value);
    }
  }

  lemma RedactedParts(p: Json)
    ensures Redact(p).Obj? == p.Obj? && Redact(p).Arr? == p.Arr? && (Count(p) == 0 ==> Redact(p) == p)
    ensures p.Obj? ==> forall i :: 0 <= i < |p.fields| ==>
              Redact(p).fields[i] == Field(p.fields[i].key, RedactValue(p.fields[i].key, p.fields[i].value))
    ensures p.Arr? ==> forall i :: 0 <= i < |p.items| ==> Redact(p).items[i] == Redact(p.items[i])
  {
  }

  lemma UniqueParts(p: Json)
    requires UniqueKeys(p)
    ensures p.Obj? ==> forall i :: 0 <= i < |p.fields| ==> UniqueKeys(p.fields[i].value)
    ensures p.Arr? ==> forall i :: 0 <= i < |p.items| ==> UniqueKeys(p.items[i])
    ensures p.Obj? ==> forall i, j :: 0 <= i < j < |p.fields| ==> p.fields[i].key != p.fields[j].key
  {
    forall i | 0 <= i < Count(p) ensures UniqueKeys(Child(p, i)) { }
    if p.Obj? {
      forall i | 0 <= i < |p.fields| ensures UniqueKeys(p.fields[i].value) { assert UniqueKeys(Child(p, i)); }
    }
    if p.Arr? {
      forall i | 0 <= i < |p.items| ensures UniqueKeys(p.items[i]) { assert UniqueKeys(Child(p, i)); }
    }
  }

  method RedactPayload(payload: Json) returns (out: Json)
    requires UniqueKeys(payload)
    ensures out == Redact(payload)
    decreases payload, 1
  {
    match payload
    case Obj(_) =>
      out := RedactFields(payload);
    case Arr(_) =>
      out := RedactItems(payload);
    case _ =>
      out := payload;
  }

  method RedactFields(payload: Json) returns (out: Json)
    requires payload.Obj? && UniqueKeys(payload)
    ensures out == Redact(payload)
    decreases payload, 0
  {
    hide HasPublicValue, Redact, UniqueKeys;
    RedactedParts(payload);
    UniqueParts(payload);
    var fields := payload.fields;
    var redacted: seq<Field> := [];
    for i := 0 to |fields|
      invariant |redacted| == i
      invariant forall k :: 0 <= k < i ==> redacted[k] == Redact(payload).fields[k]
    {
      var key, value := fields[i].key, fields[i].value;
      PutNew(redacted, key, RedactValue(key, value));
      if key == "raw" && value.Obj? {
        redacted := Put(redacted, key, Obj([]));
      } else if key in UNSAFE_KEYS && HasPublicValue(value) {
        redacted := Put(redacted, key, Str(Marker(key)));
      } else {
        assert fields[i] < payload;
        var copy := RedactPayload(value);
        redacted := Put(redacted, key, copy);
      }
    }
    out := Obj(redacted);
  }

  method RedactItems(payload: Json) returns (out: Json)
    requires payload.Arr? && UniqueKeys(payload)
    ensures out == Redact(payload)
    decreases payload, 0
  {
    hide Redact, UniqueKeys;
    RedactedParts(payload);
    UniqueParts(payload);
    var items, copies: seq<Json> := payload.items, [];
    for i := 0 to |items|
      invariant |copies| == i
      invariant forall k :: 0 <= k < i ==> copies[k] == Redact(payload).items[k]
    {
      var copy := RedactPayload(items[i]);
      copies := copies + [copy];
    }
    out := Arr(copies);
  }

  function Decimal(n: nat): string {
    (if n < 10 then "" else Decimal(n / 10)) + ["0123456789"[n % 10]]
  }

  function Digit(c: char): int {
    c as int - '0' as int
  }

  /** The number that a text of digits denotes. */
  function Value(digits: string): int {
    if digits == "" then 0 else 10 * Value(digits[..|digits| - 1]) + Digit(digits[|digits| - 1])
  }

  predicate AllDigits(s: string) {
    forall k :: 0 <= k < |s| ==> 0 <= Digit(s[k]) <= 9
  }

  /** An index in a path can be read back, and has no leading zero. */
  lemma {:induction false} DecimalReads(n: nat)
    ensures Value(Decimal(n)) == n && AllDigits(Decimal(n)) && Decimal(n) != "" && (n > 0 ==> Decimal(n)[0] != '0')
  {
    hide *;
    var front, d := DecimalStep(n);
    ValueStep(front, d);
    if n >= 10 { DecimalReads(n / 10); }
  }

  lemma DecimalStep(n: nat) returns (front: string, d: char)
    ensures Decimal(n) == front + [d] && front == (if n < 10 then "" else Decimal(n / 10))
    ensures Digit(d) == n % 10 && (Digit(d) > 0 ==> d != '0')
  {
    front, d := if n < 10 then "" else Decimal(n / 10), "0123456789"[n % 10];
  }

  lemma ValueStep(front: string, d: char)
    ensures Value(front + [d]) == 10 * Value(front) + Digit(d) && Value("") == 0 && AllDigits("")
    ensures AllDigits(front) && 0 <= Digit(d) <= 9 ==> AllDigits(front + [d])
  {
    assert (front + [d])[..|front|] == front;
  }

  /** How the error message writes a path. */
  function PathText(path: seq<Step>): string {
    if path == [] then ""
    else (match path[0]
          case Key(key) => "." + key
          case Index(i) => "[" + Decimal(i) + "]")
         + PathText(path[1..])
  }

  /** The error is the message for some field that holds a raw value. */
  ghost predicate Blames(p: Json, at: string, error: string) {
    exists path: seq<Step>, key: string, v: Json :: RawAt(p, path, key, v) && error == at + PathText(path) + "." + key
  }

  lemma RawBelow(p: Json, i: nat, path: seq<Step>, key: string, v: Json)
    requires i < Count(p) && RawAt(Child(p, i), path, key, v)
    ensures RawAt(p, [StepTo(p, i)] + path, key, v)
  {
    var full := [StepTo(p, i)] + path + [Key(key)];
    assert full[1..] == path + [Key(key)];
    assert ReachesBy(p, i, full, v);
  }

  lemma PathTextStep(step: Step, path: seq<Step>)
    ensures PathText([step] + path) == PathText([step]) + PathText(path)
  {
    assert ([step] + path)[1..] == path && [step][1..] == [] && PathText([]) == "";
  }

  lemma BlamesChild(p: Json, i: nat, at: string, error: string)
    requires i < Count(p) && Blames(Child(p, i), at + PathText([StepTo(p, i)]), error)
    ensures Blames(p, at, error)
  {
    hide PathText;
    var step := StepTo(p, i);
    var path: seq<Step>, key: string, v: Json :|
      RawAt(Child(p, i), path, key, v) && error == at + PathText([step]) + PathText(path) + "." + key;
    RawBelow(p, i, path, key, v);
    PathTextStep(step, path);
    assert RawAt(p, [step] + path, key, v) && error == at + PathText([step] + path) + "." + key;
  }

  lemma BlamesField(p: Json, i: nat, at: string)
    requires i < Count(p) && Leaks(p, i)
    ensures Blames(p, at, at + "." + p.fields[i].key)
  {
    LeakIsRaw(p, i);
    var path: seq<Step>, key := [], p.fields[i].key;
    assert at + PathText(path) + "." + key == at + "." + key;
  }

  /** Accepts exactly the safe payloads; otherwise blames a field that does hold a raw value. */
  method AssertSafe(payload: Json, path: string) returns (error: Option<string>)
    ensures error.None? <==> Safe(payload)
    ensures error.Some? ==> Blames(payload, path, error.value)
    decreases payload
  {
    error := None;
    for i := 0 to Count(payload)
      invariant error.None? && forall k :: 0 <= k < i ==> !Leaks(payload, k) && Safe(Child(payload, k))
    {
      if Leaks(payload, i) {
        BlamesField(payload, i, path);
        return Some(path + "." + payload.fields[i].key);
      }
      var step := PathText([StepTo(payload, i)]);
      error := AssertSafe(Child(payload, i), path + step);
      if error.Some? {
        BlamesChild(payload, i, path, error.value);
        return;
      }
    }
  }
}

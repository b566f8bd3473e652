/**
 * Input sanitisation and player verification (src/utils/SanitizeData.ts,
 * src/utils/VerifyPlayer.ts): the client's message is an untyped JavaScript object; the
 * sanitiser copies five allow-listed fields, type-checks and cleans them, checks the
 * fields the handler requires, and verifies a key/secret pair when both are truthy.
 */
module Sanitizer {
  import opened Options
  import opened Text
  import opened Tables

  /** A JavaScript value as it arrives in a client message; Obj stands for arrays and objects. */
  datatype JsValue = Undefined | Null | Bool(b: bool) | Num(x: real) | Str(s: string) | Obj

  /** A client message: its own properties; a property that is absent reads as undefined. */
  type Input = map<string, JsValue>

  function Get(input: Input, name: string): JsValue
  {
    if name in input then input[name] else Undefined
  }

  /** The typeof operator; typeof null is "object". */
  function TypeOf(v: JsValue): (t: string)
    ensures t == "string" <==> v.Str?
    ensures t == "number" <==> v.Num?
  {
    match v
    case Undefined => "undefined"
    case Null => "object"
    case Bool(_) => "boolean"
    case Num(_) => "number"
    case Str(_) => "string"
    case Obj => "object"
  }

  /**
   * The integer part of a number written in plain decimal form (no exponent): truncation
   * toward zero.
   */
  function Trunc(x: real): (n: int)
    ensures 0.0 <= x ==> 0 <= n && n as real <= x < n as real + 1.0
    ensures x < 0.0 ==> n <= 0 && n as real - 1.0 < x <= n as real
  {
    if 0.0 <= x then x.Floor else -((-x).Floor)
  }

  function Abs(x: real): real
  {
    if x < 0.0 then -x else x
  }

  function Pow10(e: nat): (p: real)
    ensures p >= 1.0
  {
    if e == 0 then 1.0 else 10.0 * Pow10(e - 1)
  }

  /** Number::toString writes x without an exponent exactly when 10^-6 <= |x| < 10^21 (or x is 0). */
  predicate PlainForm(x: real)
  {
    x == 0.0 || (0.000001 <= Abs(x) && Abs(x) < 1_000_000_000_000_000_000_000.0)
  }

  /** y >= 1 has leading digit d at exponent e: d * 10^e <= y < (d + 1) * 10^e. */
  predicate LeadsAbove(y: real, d: int, e: nat)
  {
    d as real * Pow10(e) <= y < (d + 1) as real * Pow10(e)
  }

  /** y < 1 has leading digit d at exponent -e: d <= y * 10^e < d + 1. */
  predicate LeadsBelow(y: real, d: int, e: nat)
  {
    d as real <= y * Pow10(e) < (d + 1) as real
  }

  lemma LeadsAboveStep(y: real, d: int, e: nat)
    requires LeadsAbove(y / 10.0, d, e)
    ensures LeadsAbove(y, d, e + 1)
  {
    var p := Pow10(e);
    assert Pow10(e + 1) == 10.0 * p;
    assert d as real * (10.0 * p) == 10.0 * (d as real * p);
    assert (d + 1) as real * (10.0 * p) == 10.0 * ((d + 1) as real * p);
  }

  lemma LeadsBelowStep(y: real, d: int, e: nat)
    requires LeadsBelow(10.0 * y, d, e)
    ensures LeadsBelow(y, d, e + 1)
  {
    var p := Pow10(e);
    assert Pow10(e + 1) == 10.0 * p;
    assert y * (10.0 * p) == (10.0 * y) * p;
  }

  /** Scaling a number below one up by ten shrinks the integer part of its reciprocal. */
  lemma ReciprocalShrinks(y: real)
    requires 0.0 < y && 10.0 * y < 1.0
    ensures 0 <= (1.0 / (10.0 * y)).Floor < (1.0 / y).Floor
  {
    var w := 1.0 / y;
    assert y * w == 1.0;
    assert w > 10.0;
    assert 1.0 / (10.0 * y) == w / 10.0 by {
      assert (10.0 * y) * (w / 10.0) == y * w;
    }
  }

  /** The first significant digit of y >= 1: divide by ten until below ten. */
  function DigitDown(y: real): (d: int)
    requires y >= 1.0
    ensures 1 <= d <= 9
    decreases y.Floor
  {
    if y < 10.0 then y.Floor else DigitDown(y / 10.0)
  }

  /** The first significant digit of 0 < y < 1: scale up by ten until at least one. */
  function DigitUp(y: real): (d: int)
    requires 0.0 < y < 1.0
    ensures 1 <= d <= 9
    decreases (1.0 / y).Floor
  {
    if 10.0 * y >= 1.0 then DigitDown(10.0 * y)
    else
      ReciprocalShrinks(y);
      DigitUp(10.0 * y)
  }

  lemma {:induction false} DigitDownScale(y: real)
    requires y >= 1.0
    ensures exists e: nat :: LeadsAbove(y, DigitDown(y), e)
    decreases y.Floor
  {
    var d := DigitDown(y);
    if y < 10.0 {
      assert LeadsAbove(y, d, 0);
    } else {
      DigitDownScale(y / 10.0);
      var e: nat :| LeadsAbove(y / 10.0, d, e);
      LeadsAboveStep(y, d, e);
    }
  }

  lemma {:induction false} DigitUpScale(y: real)
    requires 0.0 < y < 1.0
    ensures exists e: nat :: LeadsBelow(y, DigitUp(y), e)
    decreases (1.0 / y).Floor
  {
    var d := DigitUp(y);
    if 10.0 * y >= 1.0 {
      assert 10.0 * y < 10.0;
      assert d == (10.0 * y).Floor;
      assert LeadsBelow(10.0 * y, d, 0);
      LeadsBelowStep(y, d, 0);
    } else {
      ReciprocalShrinks(y);
      DigitUpScale(10.0 * y);
      var e: nat :| LeadsBelow(10.0 * y, d, e);
      LeadsBelowStep(y, d, e);
    }
  }

  function IntAbs(n: int): nat
  {
    if n < 0 then -n else n
  }

  /**
   * parseInt applied to a finite number reads the number's string form: in plain form that
   * is truncation; in exponent form ("5e-7", "1.5e+21") parsing stops at the '.' or 'e', so
   * the result is the signed leading digit.
   */
  function ParseNumber(x: real): (n: int)
    ensures PlainForm(x) ==> n == Trunc(x)
    ensures !PlainForm(x) ==> 1 <= IntAbs(n) <= 9 && (n < 0 <==> x < 0.0)
    ensures 0.0 < Abs(x) < 0.000001 ==> exists e: nat :: LeadsBelow(Abs(x), IntAbs(n), e)
    ensures Abs(x) >= 1_000_000_000_000_000_000_000.0 ==> exists e: nat :: LeadsAbove(Abs(x), IntAbs(n), e)
  {
    if PlainForm(x) then Trunc(x)
    else if Abs(x) < 1.0 then
      DigitUpScale(Abs(x));
      var d := DigitUp(Abs(x));
      if x < 0.0 then -d else d
    else
      DigitDownScale(Abs(x));
      var d := DigitDown(Abs(x));
      if x < 0.0 then -d else d
  }

  /** parseInt(1e21) reads "1e+21" and gives 1. */
  lemma ParseNumberLarge()
    ensures ParseNumber(1_000_000_000_000_000_000_000.0) == 1
  {
    assert DigitDown(1000000000000000000000.0) == DigitDown(100000000000000000000.0) == DigitDown(10000000000000000000.0) == DigitDown(1000000000000000000.0) == DigitDown(100000000000000000.0) == DigitDown(10000000000000000.0) == DigitDown(1000000000000000.0) == DigitDown(100000000000000.0) == DigitDown(10000000000000.0) == DigitDown(1000000000000.0) == DigitDown(100000000000.0) == DigitDown(10000000000.0) == DigitDown(1000000000.0) == DigitDown(100000000.0) == DigitDown(10000000.0) == DigitDown(1000000.0) == DigitDown(100000.0) == DigitDown(10000.0) == DigitDown(1000.0) == DigitDown(100.0) == DigitDown(10.0) == DigitDown(1.0) == 1;
  }

  /** parseInt(5e-7) reads "5e-7" and gives 5; parseInt(-1.5e-7) gives -1. */
  lemma ParseNumberSmall()
    ensures ParseNumber(0.0000005) == 5
    ensures ParseNumber(-0.00000015) == -1
  {
    assert DigitUp(0.0000005) == DigitUp(0.000005) == DigitUp(0.00005) == DigitUp(0.0005)
      == DigitUp(0.005) == DigitUp(0.05) == DigitUp(0.5) == 5;
    assert DigitUp(0.00000015) == DigitUp(0.0000015) == DigitUp(0.000015) == DigitUp(0.00015)
      == DigitUp(0.0015) == DigitUp(0.015) == DigitUp(0.15) == 1;
  }

  /** An integer written in plain form parses back to itself. */
  lemma ParseNumberOfInteger(k: int)
    requires -1_000_000_000_000_000_000_000 < k < 1_000_000_000_000_000_000_000
    ensures ParseNumber(k as real) == k
  { }


  /** A cleaned field: null kept as null, a cleaned string, or an integer. */
  datatype Clean = NullValue | Text(s: string) | Int(n: int)

  /** The cleaned object: a name that is not a key was left undefined. */
  type Cleaned = map<string, Clean>

  /** The allow-list: field names and the typeof each must have, in the order they are checked. */
  const Allowed: seq<(string, string)> := [
    ("playerName", "string"), ("playerKey", "number"), ("playerSecret", "string"),
    ("roomCode", "string"), ("questionIndex", "number")]

  function Names(fields: seq<(string, string)>): set<string>
  {
    set j | 0 <= j < |fields| :: fields[j].0
  }

  /** What one allow-listed field contributes: nothing, a cleaned value, or a type error. */
  datatype FieldOutcome = Skip | Kept(c: Clean) | Mismatch(msg: string)

  function CleanField(name: string, ty: string, v: JsValue): (o: FieldOutcome)
    requires ty == "string" || ty == "number"
    ensures o.Skip? <==> v.Undefined?
    ensures o.Mismatch? <==> !v.Undefined? && !v.Null? && TypeOf(v) != ty
    ensures o.Kept? && v.Null? ==> o.c == NullValue
    ensures o.Kept? && v.Str? ==> o.c == Text(CleanText(v.s))
    ensures o.Kept? && v.Num? ==> o.c == Int(ParseNumber(v.x))
  {
    if v.Undefined? then Skip
    else if v.Null? then Kept(NullValue)
    else if TypeOf(v) != ty then Mismatch("Malformed input " + name + ", was type " + TypeOf(v))
    else if ty == "string" then Kept(Text(CleanText(v.s)))
    else Kept(Int(ParseNumber(v.x)))
  }

  /** The first loop: copy the remaining fields into acc, stopping at the first type error. */
  function Copy(input: Input, fields: seq<(string, string)>, acc: Cleaned): Result<Cleaned>
    requires forall j :: 0 <= j < |fields| ==> fields[j].1 == "string" || fields[j].1 == "number"
  {
    if fields == [] then Ok(acc)
    else
      var (name, ty) := fields[0];
      match CleanField(name, ty, Get(input, name))
      case Skip => Copy(input, fields[1..], acc)
      case Kept(c) => Copy(input, fields[1..], acc[name := c])
      case Mismatch(m) => Err(m)
  }

  /** The second loop: the first required field that is undefined or null. */
  function FirstMissing(required: seq<string>, data: Cleaned): (r: Option<string>)
    ensures r.None? <==> forall j :: 0 <= j < |required| ==> required[j] in data && data[required[j]] != NullValue
    ensures r.Some? ==> exists j :: (0 <= j < |required| && required[j] == r.value &&
      (r.value !in data || data[r.value] == NullValue))
  {
    if required == [] then None
    else if required[0] !in data || data[required[0]] == NullValue then Some(required[0])
    else
      var r := FirstMissing(required[1..], data);
      assert forall j :: 1 <= j < |required| ==> required[j] == required[1..][j - 1];
      if r.Some? then
        var j :| 0 <= j < |required[1..]| && required[1..][j] == r.value && (r.value !in data || data[r.value] == NullValue);
        assert required[j + 1] == r.value;
        r
      else r
  }

  /** The JavaScript value a cleaned field reads as when passed on. */
  function AsJs(data: Cleaned, name: string): JsValue
  {
    if name !in data then Undefined
    else match data[name]
      case NullValue => Null
      case Text(s) => Str(s)
      case Int(n) => Num(n as real)
  }

  /** `cleanData.playerKey && cleanData.playerSecret`: a nonzero key and a nonempty secret. */
  predicate ShouldVerify(data: Cleaned)
  {
    "playerKey" in data && data["playerKey"].Int? && data["playerKey"].n != 0 &&
    "playerSecret" in data && data["playerSecret"].Text? && data["playerSecret"].s != ""
  }

  /** A cleaned number field as the handlers read it: 0, which is falsy, when undefined or null. */
  function IntField(data: Cleaned, name: string): int
  {
    if name in data && data[name].Int? then data[name].n else 0
  }

  /** A cleaned string field as the handlers read it: "", which is falsy, when undefined or null. */
  function TextField(data: Cleaned, name: string): string
  {
    if name in data && data[name].Text? then data[name].s else ""
  }

  /** The number of player rows with this key and secret (and room code, when one is given). */
  function MatchCount(players: PlayerTable, key: int, secret: string, room: Option<string>): nat
  {
    |set k | k in players && k == key && players[k].secret == secret &&
      (room.None? || players[k].roomCode == room.value)|
  }

  /**
   * VerifyPlayer: presence and type checks, then a SELECT count(*) on the normalised key,
   * secret and room code. A count(*) query returns one row whatever the count, so only a
   * failed query (queryFails) makes a well-typed pair unverified.
   */
  function VerifyPlayer(key: JsValue, secret: JsValue, roomCode: JsValue, players: PlayerTable, queryFails: bool): (r: Result<()>)
    ensures r.Ok? <==> !queryFails && key.Num? && secret.Str? && (roomCode.Undefined? || roomCode.Null? || roomCode.Str?)
    ensures (key.Undefined? || key.Null? || secret.Undefined? || secret.Null?) ==>
      r == Err("Both player key and player secret required.")
    ensures !(key.Undefined? || key.Null? || secret.Undefined? || secret.Null?) && !(key.Num? && secret.Str?) ==>
      r == Err("Player key or player secret malformed in player verification.")
    ensures key.Num? && secret.Str? && !(roomCode.Undefined? || roomCode.Null? || roomCode.Str?) ==>
      r == Err("Room code malformed in player verification.")
    ensures key.Num? && secret.Str? && (roomCode.Undefined? || roomCode.Null? || roomCode.Str?) && queryFails ==>
      r == Err("Player not verified to exist.")
  {
    if key.Undefined? || key.Null? || secret.Undefined? || secret.Null? then
      Err("Both player key and player secret required.")
    else if TypeOf(key) != "number" || TypeOf(secret) != "string" then
      Err("Player key or player secret malformed in player verification.")
    else
      var playerKey := ParseNumber(key.x);
      var playerSecret := AlnumText(secret.s);
      if !(roomCode.Undefined? || roomCode.Null?) && TypeOf(roomCode) != "string" then
        Err("Room code malformed in player verification.")
      else
        var room := if roomCode.Str? then Some(AlnumText(roomCode.s)) else None;
        var rows := [MatchCount(players, playerKey, playerSecret, room)];
        if queryFails || |rows| == 0 then Err("Player not verified to exist.")
        else Ok(())
  }

  /** The whole of SanitizeData as a value: the cleaned fields, or the error it reports. */
  function Sanitize(input: Input, required: seq<string>, players: PlayerTable, verifyFails: bool): Result<Cleaned>
  {
    match Copy(input, Allowed, map[])
    case Err(m) => Err(m)
    case Ok(data) =>
      match FirstMissing(required, data)
      case Some(f) => Err("Missing " + f + " data.\"")
      case None =>
        if !ShouldVerify(data) then Ok(data)
        else
          match VerifyPlayer(AsJs(data, "playerKey"), AsJs(data, "playerSecret"), AsJs(data, "roomCode"), players, verifyFails)
          case Err(e) => Err("SanitizeData found player data that didn't validate. " + e)
          case Ok(_) => Ok(data)
  }

  /** The object SanitizeData returns: its clean flag, its error, and the fields copied so far. */
  datatype Sanitized = Sanitized(clean: bool, error: Option<string>, data: Cleaned)

  /** SanitizeData, with its two loops; the outcome is the one Sanitize describes. */
  method SanitizeData(input: Input, required: seq<string>, players: PlayerTable, faults: set<Fault>) returns (r: Sanitized)
    ensures r.clean <==> Sanitize(input, required, players, VerifyCount in faults).Ok?
    ensures r.clean ==> r.error.None? && r.data == Sanitize(input, required, players, VerifyCount in faults).value
    ensures !r.clean ==> r.error == Some(Sanitize(input, required, players, VerifyCount in faults).msg)
  {
    var copied, malformed, cleanData := CopyAllowed(input);
    if !copied {
      assert Sanitize(input, required, players, VerifyCount in faults) == Err(malformed);
      return Sanitized(false, Some(malformed), cleanData);
    }
    var missing := FindMissing(required, cleanData);
    if missing.Some? {
      assert Sanitize(input, required, players, VerifyCount in faults) == Err("Missing " + missing.value + " data.\"");
      return Sanitized(false, Some("Missing " + missing.value + " data.\""), cleanData);
    }
    if ShouldVerify(cleanData) {
      var verification := VerifyPlayer(AsJs(cleanData, "playerKey"), AsJs(cleanData, "playerSecret"),
        AsJs(cleanData, "roomCode"), players, VerifyCount in faults);
      if verification.Err? {
        assert Sanitize(input, required, players, VerifyCount in faults) ==
          Err("SanitizeData found player data that didn't validate. " + verification.msg);
        return Sanitized(false, Some("SanitizeData found player data that didn't validate. " + verification.msg), cleanData);
      }
    }
    assert Sanitize(input, required, players, VerifyCount in faults) == Ok(cleanData);
    return Sanitized(true, None, cleanData);
  }

  /** SanitizeData's first loop over the allow-list, which Copy describes. */
  method CopyAllowed(input: Input) returns (copied: bool, malformed: string, cleanData: Cleaned)
    ensures copied <==> Copy(input, Allowed, map[]).Ok?
    ensures copied ==> cleanData == Copy(input, Allowed, map[]).value
    ensures !copied ==> malformed == Copy(input, Allowed, map[]).msg
  {
    cleanData := map[];
    for i := 0 to |Allowed|
      invariant Copy(input, Allowed[i..], cleanData) == Copy(input, Allowed, map[])
    {
      assert Allowed[i..][1..] == Allowed[i + 1..];
      var (inputName, inputType) := Allowed[i];
      var data := Get(input, inputName);
      if data.Undefined? {
        continue;
      }
      if data.Null? {
        cleanData := cleanData[inputName := NullValue];
        continue;
      }
      if TypeOf(data) != inputType {
        return false, "Malformed input " + inputName + ", was type " + TypeOf(data), cleanData;
      }
      if inputType == "string" {
        cleanData := cleanData[inputName := Text(CleanText(data.s))];
      } else {
        cleanData := cleanData[inputName := Int(ParseNumber(data.x))];
      }
    }
    return true, "", cleanData;
  }

  /** SanitizeData's second loop over the required fields, which FirstMissing describes. */
  method FindMissing(required: seq<string>, cleanData: Cleaned) returns (missing: Option<string>)
    ensures missing == FirstMissing(required, cleanData)
  {
    for j := 0 to |required|
      invariant FirstMissing(required[j..], cleanData) == FirstMissing(required, cleanData)
    {
      assert required[j..][1..] == required[j + 1..];
      var fieldName := required[j];
      if fieldName !in cleanData || cleanData[fieldName] == NullValue {
        return Some(fieldName);
      }
    }
    return None;
  }

  function Outcome(input: Input, f: (string, string)): FieldOutcome
    requires f.1 == "string" || f.1 == "number"
  {
    CleanField(f.0, f.1, Get(input, f.0))
  }

  predicate WellTyped(fields: seq<(string, string)>)
  {
    forall j :: 0 <= j < |fields| ==> fields[j].1 == "string" || fields[j].1 == "number"
  }

  predicate DistinctNames(fields: seq<(string, string)>)
  {
    forall i, j :: 0 <= i < j < |fields| ==> fields[i].0 != fields[j].0
  }

  /** The first loop's result: every field conforms, and each contributes exactly its cleaned value. */
  lemma {:induction false} CopyContents(input: Input, fields: seq<(string, string)>, acc: Cleaned)
    requires WellTyped(fields) && DistinctNames(fields)
    requires forall k :: k in acc ==> k !in Names(fields)
    ensures Copy(input, fields, acc).Ok? <==> forall j :: 0 <= j < |fields| ==> !Outcome(input, fields[j]).Mismatch?
    ensures Copy(input, fields, acc).Ok? ==>
      var r := Copy(input, fields, acc).value;
      (forall k :: k in r ==> k in acc || k in Names(fields)) &&
      (forall k :: k in acc ==> k in r && r[k] == acc[k]) &&
      (forall j :: 0 <= j < |fields| && Outcome(input, fields[j]).Kept? ==>
        fields[j].0 in r && r[fields[j].0] == Outcome(input, fields[j]).c) &&
      (forall j :: 0 <= j < |fields| && Outcome(input, fields[j]).Skip? ==> fields[j].0 !in r)
    decreases |fields|
  {
    if fields != [] {
      var (name, ty) := fields[0];
      var rest := fields[1..];
      assert forall j :: 1 <= j < |fields| ==> fields[j] == rest[j - 1];
      NamesSplit(fields);
      match Outcome(input, fields[0])
      case Skip =>
        CopyContents(input, rest, acc);
      case Kept(c) =>
        CopyContents(input, rest, acc[name := c]);
      case Mismatch(m) =>
    }
  }

  /** The names of a list of distinct fields: the first one, apart from the names of the rest. */
  lemma NamesSplit(fields: seq<(string, string)>)
    requires fields != [] && DistinctNames(fields)
    ensures Names(fields) == {fields[0].0} + Names(fields[1..])
    ensures fields[0].0 !in Names(fields[1..])
  {
    var rest := fields[1..];
    forall k | k in Names(fields) ensures k in {fields[0].0} + Names(rest) {
      var j :| 0 <= j < |fields| && fields[j].0 == k;
      if j > 0 { assert rest[j - 1].0 == k; }
    }
    forall k | k in Names(rest) ensures k in Names(fields) {
      var j :| 0 <= j < |rest| && rest[j].0 == k;
      assert fields[j + 1].0 == k;
    }
    forall j | 0 <= j < |rest| ensures rest[j].0 != fields[0].0 {
      assert fields[j + 1].0 != fields[0].0;
    }
  }

  /**
   * SanitizeData succeeds exactly when every allow-listed field is undefined, null or of its
   * type, every required field is present and not null, and, when the key is nonzero and the
   * secret nonempty, verification passes; the cleaned object then holds exactly the allow-listed
   * fields that were not undefined, null kept as null, strings cleaned, numbers through parseInt.
   */
  lemma SanitizeOutcome(input: Input, required: seq<string>, players: PlayerTable, verifyFails: bool)
    ensures Copy(input, Allowed, map[]).Ok? <==> forall j :: 0 <= j < |Allowed| ==> !Outcome(input, Allowed[j]).Mismatch?
    ensures Sanitize(input, required, players, verifyFails).Ok? ==>
      var d := Sanitize(input, required, players, verifyFails).value;
      d == Copy(input, Allowed, map[]).value &&
      (forall k :: k in d ==> k in Names(Allowed)) &&
      (forall j :: 0 <= j < |Allowed| ==>
        var v := Get(input, Allowed[j].0);
        (Allowed[j].0 in d <==> !v.Undefined?) &&
        (v.Null? ==> d[Allowed[j].0] == NullValue) &&
        (v.Str? ==> d[Allowed[j].0] == Text(CleanText(v.s))) &&
        (v.Num? ==> d[Allowed[j].0] == Int(ParseNumber(v.x))))
  {
    AllowListShape();
    CopyContents(input, Allowed, map[]);
  }

  /**
   * SanitizeData succeeds exactly when no allow-listed field has the wrong type, every
   * required field is present and not null, and verification, when it runs, does not fail.
   */
  lemma SanitizeAccepts(input: Input, required: seq<string>, players: PlayerTable, verifyFails: bool)
    ensures Sanitize(input, required, players, verifyFails).Ok? <==>
      Copy(input, Allowed, map[]).Ok? &&
      var d := Copy(input, Allowed, map[]).value;
      (forall j :: 0 <= j < |required| ==> required[j] in d && d[required[j]] != NullValue) &&
      (ShouldVerify(d) ==> !verifyFails)
  {
    var c := Copy(input, Allowed, map[]);
    if c.Ok? && FirstMissing(required, c.value).None? && ShouldVerify(c.value) {
      AllowListShape();
      CopyContents(input, Allowed, map[]);
      assert Allowed[3] == ("roomCode", "string");
      VerifyCleaned(c.value, players, verifyFails);
    }
  }

  lemma VerifyCleaned(d: Cleaned, players: PlayerTable, verifyFails: bool)
    requires ShouldVerify(d)
    requires "roomCode" in d ==> !d["roomCode"].Int?
    ensures VerifyPlayer(AsJs(d, "playerKey"), AsJs(d, "playerSecret"), AsJs(d, "roomCode"), players, verifyFails).Ok? <==> !verifyFails
  {
  }

  lemma AllowListShape()
    ensures WellTyped(Allowed) && DistinctNames(Allowed)
  {
  }

  /**
   * The first field, in allow-list order, whose value has the wrong type is the one the
   * error names, whatever the other fields hold.
   */
  lemma SanitizeTypeError(input: Input, required: seq<string>, players: PlayerTable, verifyFails: bool, j: int)
    requires 0 <= j < |Allowed|
    requires forall i :: 0 <= i < j ==> !Outcome(input, Allowed[i]).Mismatch?
    requires Outcome(input, Allowed[j]).Mismatch?
    ensures Sanitize(input, required, players, verifyFails) ==
      Err("Malformed input " + Allowed[j].0 + ", was type " + TypeOf(Get(input, Allowed[j].0)))
  {
    AllowListShape();
    FirstTypeError(input, Allowed, map[], j);
    assert Copy(input, Allowed, map[]).Err?;
  }

  lemma {:induction false} FirstTypeError(input: Input, fields: seq<(string, string)>, acc: Cleaned, j: int)
    requires WellTyped(fields) && 0 <= j < |fields|
    requires forall i :: 0 <= i < j ==> !Outcome(input, fields[i]).Mismatch?
    requires Outcome(input, fields[j]).Mismatch?
    ensures Copy(input, fields, acc) == Err(Outcome(input, fields[j]).msg)
    decreases j
  {
    if j > 0 {
      assert forall i :: 1 <= i < |fields| ==> fields[i] == fields[1..][i - 1];
      match Outcome(input, fields[0])
      case Skip =>
        FirstTypeError(input, fields[1..], acc, j - 1);
      case Kept(c) =>
        FirstTypeError(input, fields[1..], acc[fields[0].0 := c], j - 1);
    }
  }

  /** Only the five allow-listed properties are read: any other property of the message is ignored. */
  lemma SanitizeReadsAllowListOnly(a: Input, b: Input, required: seq<string>, players: PlayerTable, verifyFails: bool)
    requires forall j :: 0 <= j < |Allowed| ==> Get(a, Allowed[j].0) == Get(b, Allowed[j].0)
    ensures Sanitize(a, required, players, verifyFails) == Sanitize(b, required, players, verifyFails)
  {
    CopyReadsFieldsOnly(a, b, Allowed, map[]);
  }

  lemma {:induction false} CopyReadsFieldsOnly(a: Input, b: Input, fields: seq<(string, string)>, acc: Cleaned)
    requires WellTyped(fields)
    requires forall j :: 0 <= j < |fields| ==> Get(a, fields[j].0) == Get(b, fields[j].0)
    ensures Copy(a, fields, acc) == Copy(b, fields, acc)
    decreases |fields|
  {
    if fields != [] {
      assert forall i :: 1 <= i < |fields| ==> fields[i] == fields[1..][i - 1];
      assert Outcome(a, fields[0]) == Outcome(b, fields[0]);
      match Outcome(a, fields[0])
      case Skip =>
        CopyReadsFieldsOnly(a, b, fields[1..], acc);
      case Kept(c) =>
        CopyReadsFieldsOnly(a, b, fields[1..], acc[fields[0].0 := c]);
      case Mismatch(_) =>
    }
  }

  /**
   * A key of 0 or an empty secret skips verification: the outcome then does not depend on
   * the player table or on the verification query.
   */
  lemma SanitizeSkipsFalsyCredentials(input: Input, required: seq<string>,
    p1: PlayerTable, f1: bool, p2: PlayerTable, f2: bool)
    requires Copy(input, Allowed, map[]).Ok? ==> !ShouldVerify(Copy(input, Allowed, map[]).value)
    ensures Sanitize(input, required, p1, f1) == Sanitize(input, required, p2, f2)
  {
  }

  /** The count the verification query computes is 0 or 1, and 0 for a key with no row. */
  lemma MatchCountBounds(players: PlayerTable, key: int, secret: string, room: Option<string>)
    ensures MatchCount(players, key, secret, room) <= 1
    ensures key !in players ==> MatchCount(players, key, secret, room) == 0
  {
    var matches := set k | k in players && k == key && players[k].secret == secret &&
      (room.None? || players[k].roomCode == room.value);
    assert matches <= {key} * players.Keys;
    if key in players {
      if matches != {} {
        assert matches == {key};
      }
    } else {
      assert matches == {};
    }
  }

  /** A message whose only allow-listed properties are a numeric key and a string secret. */
  predicate KeyAndSecretOnly(input: Input, key: real, secret: string)
  {
    Get(input, "playerKey") == Num(key) && Get(input, "playerSecret") == Str(secret) &&
    Get(input, "playerName") == Undefined && Get(input, "roomCode") == Undefined &&
    Get(input, "questionIndex") == Undefined
  }

  /** Such a message copies to exactly its two fields, cleaned. */
  lemma CopyKeyAndSecret(input: Input, key: real, secret: string)
    requires KeyAndSecretOnly(input, key, secret)
    ensures Copy(input, Allowed, map[]) ==
      Ok(map["playerKey" := Int(ParseNumber(key)), "playerSecret" := Text(CleanText(secret))])
  {
    var m1 := map["playerKey" := Int(ParseNumber(key))];
    var m2 := m1["playerSecret" := Text(CleanText(secret))];
    assert Allowed[1..] == [("playerKey", "number"), ("playerSecret", "string"), ("roomCode", "string"), ("questionIndex", "number")];
    assert Allowed[1..][1..] == [("playerSecret", "string"), ("roomCode", "string"), ("questionIndex", "number")];
    assert Allowed[1..][1..][1..] == [("roomCode", "string"), ("questionIndex", "number")];
    assert Copy(input, [("questionIndex", "number")], m2) == Ok(m2);
    assert Copy(input, [("roomCode", "string"), ("questionIndex", "number")], m2) == Ok(m2);
    assert Copy(input, Allowed[1..][1..], m1) == Ok(m2);
    assert Copy(input, Allowed[1..], map[]) == Ok(m2);
    assert m2 == map["playerKey" := Int(ParseNumber(key)), "playerSecret" := Text(CleanText(secret))];
  }

  /**
   * As written, every well-typed key and secret pass SanitizeData when the query succeeds,
   * whether or not a player matches: the count(*) query returns a row even when the count
   * is 0, and a falsy key or secret skips verification altogether.
   */
  lemma UnknownPlayerPassesSanitize(input: Input, key: real, secret: string, players: PlayerTable)
    requires KeyAndSecretOnly(input, key, secret)
    ensures Sanitize(input, ["playerKey", "playerSecret"], players, false) ==
      Ok(map["playerKey" := Int(ParseNumber(key)), "playerSecret" := Text(CleanText(secret))])
    ensures ParseNumber(key) !in players ==>
      MatchCount(players, ParseNumber(key), AlnumText(CleanText(secret)), None) == 0
  {
    var d := map["playerKey" := Int(ParseNumber(key)), "playerSecret" := Text(CleanText(secret))];
    assert Sanitize(input, ["playerKey", "playerSecret"], players, false) == Ok(d) by {
      CopyKeyAndSecret(input, key, secret);
      assert FirstMissing(["playerKey", "playerSecret"], d).None?;
      if ShouldVerify(d) {
        VerifyCleaned(d, players, false);
      }
    }
    MatchCountBounds(players, ParseNumber(key), AlnumText(CleanText(secret)), None);
  }
}

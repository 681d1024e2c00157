/** An app description - entities with typed fields - printed as `--entity` flags and parsed
    back from them. */
module AppSpec {
  import opened Wrappers
  import opened Text
  import opened Ordering

  const FIELD_TYPES: seq<string> := ["string", "int", "float", "bool", "uuid", "datetime"]

  type Fields = map<string, string>

  datatype AppSpec = AppSpec(name: string, entities: map<string, Fields>)

  datatype Problem =
    | MissingColon(flag: string)
    | MissingEquals(pair: string)
    | NoEntities
    | BadEntityName(entity: string)
    | NoFields(entity: string)
    | BadFieldName(entity: string, field: string)
    | UnknownType(entity: string, field: string, ty: string)

  predicate IsKnownType(ty: string) {
    ty in FIELD_TYPES
  }

  predicate IsLower(c: char) {
    'a' <= c <= 'z'
  }

  predicate IsIdent(s: string) {
    s != [] && IsLower(s[0]) && forall i :: 1 <= i < |s| ==> IsLower(s[i]) || IsDigit(s[i]) || s[i] == '_'
  }

  // ----- validation -----

  function FieldsProblem(entity: string, fields: Fields, names: seq<string>): Option<Problem>
    requires forall f :: f in names ==> f in fields
  {
    if names == [] then None
    else
      var field := names[0];
      if !IsIdent(field) || field == "id" then Some(BadFieldName(entity, field))
      else if !IsKnownType(fields[field]) then Some(UnknownType(entity, field, fields[field]))
      else FieldsProblem(entity, fields, names[1..])
  }

  function EntityProblem(entity: string, fields: Fields): Option<Problem> {
    if !IsIdent(entity) then Some(BadEntityName(entity))
    else if fields == map[] then Some(NoFields(entity))
    else FieldsProblem(entity, fields, SortedSeq(fields.Keys))
  }

  function EntitiesProblem(entities: map<string, Fields>, names: seq<string>): Option<Problem>
    requires forall e :: e in names ==> e in entities
  {
    if names == [] then None
    else
      var first := EntityProblem(names[0], entities[names[0]]);
      if first.Some? then first else EntitiesProblem(entities, names[1..])
  }

  /** The first problem in entity order, and within an entity in field order. */
  function FirstProblem(entities: map<string, Fields>): Option<Problem> {
    if entities == map[] then Some(NoEntities) else EntitiesProblem(entities, SortedSeq(entities.Keys))
  }

  /** Lowercase letters, digits and underscores, a letter first. */
  predicate GoodName(s: string) {
    && s != "" && 'a' <= s[0] <= 'z'
    && forall c :: c in s ==> 'a' <= c <= 'z' || '0' <= c <= '9' || c == '_'
  }

  predicate GoodType(ty: string) {
    ty == "string" || ty == "int" || ty == "float" || ty == "bool" || ty == "uuid" || ty == "datetime"
  }

  lemma IdentIff(s: string)
    ensures IsIdent(s) <==> GoodName(s)
  {
    if IsIdent(s) {
      forall c | c in s ensures 'a' <= c <= 'z' || '0' <= c <= '9' || c == '_' {
        var i :| 0 <= i < |s| && s[i] == c;
      }
    }
    if GoodName(s) {
      forall i | 1 <= i < |s| ensures IsLower(s[i]) || IsDigit(s[i]) || s[i] == '_' {
        assert s[i] in s;
      }
    }
  }

  lemma KnownTypeIff(ty: string)
    ensures IsKnownType(ty) <==> GoodType(ty)
  {
    var types := FIELD_TYPES;
    assert types[0] == "string" && types[1] == "int" && types[2] == "float";
    assert types[3] == "bool" && types[4] == "uuid" && types[5] == "datetime";
  }

  predicate ValidField(field: string, ty: string) {
    GoodName(field) && field != "id" && GoodType(ty)
  }

  predicate ValidFields(fields: Fields) {
    forall f :: f in fields ==> ValidField(f, fields[f])
  }

  predicate ValidEntities(entities: map<string, Fields>) {
    forall e :: e in entities ==> GoodName(e) && entities[e] != map[] && ValidFields(entities[e])
  }

  predicate Valid(entities: map<string, Fields>) {
    entities != map[] && ValidEntities(entities)
  }

  lemma {:induction false} NoFieldsProblemIff(entity: string, fields: Fields, names: seq<string>)
    requires forall f :: f in names ==> f in fields
    ensures FieldsProblem(entity, fields, names) == None <==> forall f :: f in names ==> ValidField(f, fields[f])
  {
    hide IsIdent, GoodName, GoodType, IsKnownType;
    if names != [] {
      IdentIff(names[0]);
      KnownTypeIff(fields[names[0]]);
      var rest := names[1..];
      NoFieldsProblemIff(entity, fields, rest);
      assert forall f :: f in names <==> f == names[0] || f in rest;
      if FieldsProblem(entity, fields, names) == None {
        forall f | f in names ensures ValidField(f, fields[f]) {
        }
      }
    }
  }

  lemma NoEntityProblemIff(entity: string, fields: Fields)
    ensures EntityProblem(entity, fields) == None <==> GoodName(entity) && fields != map[] && ValidFields(fields)
  {
    hide ValidField, IsIdent, GoodName;
    IdentIff(entity);
    var names := SortedSeq(fields.Keys);
    NoFieldsProblemIff(entity, fields, names);
    assert forall f :: f in names <==> f in fields;
  }

  lemma {:induction false} NoEntitiesProblemIff(entities: map<string, Fields>, names: seq<string>)
    requires forall e :: e in names ==> e in entities
    ensures EntitiesProblem(entities, names) == None
            <==> forall e :: e in names ==> GoodName(e) && entities[e] != map[] && ValidFields(entities[e])
  {
    hide EntityProblem, GoodName, ValidFields;
    if names != [] {
      NoEntityProblemIff(names[0], entities[names[0]]);
      NoEntitiesProblemIff(entities, names[1..]);
      assert forall e :: e in names <==> e == names[0] || e in names[1..];
    }
  }

  /** Validation finds no problem exactly when every name and type is good. */
  lemma NoProblemIffValid(entities: map<string, Fields>)
    ensures FirstProblem(entities) == None <==> Valid(entities)
  {
    hide GoodName, ValidFields;
    NoEntitiesProblemIff(entities, SortedSeq(entities.Keys));
  }

  // ----- parsing -----

  function ParsePairs(pairs: seq<string>): Result<Fields, Problem> {
    if pairs == [] then Ok(map[])
    else
      var front, pair := ParsePairs(pairs[..|pairs| - 1]), pairs[|pairs| - 1];
      if front.Err? || pair == "" then front
      else match SplitOnce(pair, '=')
        case None => Err(MissingEquals(pair))
        case Some((field, ty)) => Ok(front.value[Trim(field) := Trim(ty)])
  }

  function ParseFlags(flags: seq<string>): Result<map<string, Fields>, Problem> {
    if flags == [] then Ok(map[])
    else
      var front, flag := ParseFlags(flags[..|flags| - 1]), flags[|flags| - 1];
      if front.Err? then front
      else match SplitOnce(flag, ':')
        case None => Err(MissingColon(flag))
        case Some((entity, fields)) =>
          match ParsePairs(Split(fields, ','))
          case Err(problem) => Err(problem)
          case Ok(parsed) => Ok(front.value[Trim(entity) := parsed])
  }

  function FromEntityFlags(name: string, flags: seq<string>): Result<AppSpec, Problem> {
    match ParseFlags(flags)
    case Err(problem) => Err(problem)
    case Ok(entities) =>
      match FirstProblem(entities)
      case Some(problem) => Err(problem)
      case None => Ok(AppSpec(name, entities))
  }

  // ----- printing -----

  function PairsFor(fields: Fields, names: seq<string>): seq<string>
    requires forall f :: f in names ==> f in fields
  {
    if names == [] then []
    else
      var last := names[|names| - 1];
      PairsFor(fields, names[..|names| - 1]) + [last + "=" + fields[last]]
  }

  function FlagFor(entity: string, fields: Fields): string {
    entity + ":" + Join(PairsFor(fields, SortedSeq(fields.Keys)), ',')
  }

  function FlagsFor(entities: map<string, Fields>, names: seq<string>): seq<string>
    requires forall e :: e in names ==> e in entities
  {
    if names == [] then []
    else
      var last := names[|names| - 1];
      FlagsFor(entities, names[..|names| - 1]) + [FlagFor(last, entities[last])]
  }

  function PrintFlags(entities: map<string, Fields>): seq<string> {
    FlagsFor(entities, SortedSeq(entities.Keys))
  }

  // ----- the round trip -----

  /** None of the characters the flag syntax gives a meaning to. */
  predicate Plain(s: string) {
    forall i :: 0 <= i < |s| ==> s[i] != ':' && s[i] != ',' && s[i] != '=' && !IsSpace(s[i])
  }

  lemma NameIsPlain(s: string)
    requires GoodName(s)
    ensures Plain(s) && Trim(s) == s
  {
    assert forall i :: 0 <= i < |s| ==> s[i] in s;
    TrimOfTrimmed(s);
  }

  lemma TypeIsPlain(ty: string)
    requires GoodType(ty)
    ensures Plain(ty) && Trim(ty) == ty
  {
    assert GoodName(ty);
    NameIsPlain(ty);
  }

  lemma PairReadsBack(field: string, ty: string)
    requires ValidField(field, ty)
    ensures var pair := field + "=" + ty;
      pair != "" && ',' !in pair && SplitOnce(pair, '=') == Some((field, ty)) && Trim(field) == field && Trim(ty) == ty
  {
    NameIsPlain(field);
    TypeIsPlain(ty);
    hide GoodName, GoodType, SplitOnce, Trim;
    assert field + "=" + ty == field + ['='] + ty;
    SplitOnceOfConcat(field, '=', ty);
  }

  function Restrict<T>(m: map<string, T>, names: seq<string>): map<string, T> {
    map x | x in names && x in m :: m[x]
  }

  lemma RestrictStep<T>(m: map<string, T>, front: seq<string>, last: string)
    requires last in m
    ensures Restrict(m, front + [last]) == Restrict(m, front)[last := m[last]]
  {
  }

  lemma {:induction false} PairsReadBack(fields: Fields, names: seq<string>)
    requires ValidFields(fields) && forall f :: f in names ==> f in fields
    ensures |PairsFor(fields, names)| == |names|
    ensures forall p :: p in PairsFor(fields, names) ==> ',' !in p
    ensures ParsePairs(PairsFor(fields, names)) == Ok(Restrict(fields, names))
  {
    hide ValidField, SplitOnce, Trim;
    if names == [] {
      assert Restrict(fields, []) == map[];
    } else {
      var front, last := names[..|names| - 1], names[|names| - 1];
      PairReadsBack(last, fields[last]);
      PairsReadBack(fields, front);
      hide ValidFields, Restrict;
      RestrictStep(fields, front, last);
      assert names == front + [last];
    }
  }

  lemma FieldsReadBack(fields: Fields)
    requires ValidFields(fields) && fields != map[]
    ensures ParsePairs(Split(Join(PairsFor(fields, SortedSeq(fields.Keys)), ','), ',')) == Ok(fields)
  {
    hide ParsePairs, Split, Join, PairsFor, ValidFields;
    var names := SortedSeq(fields.Keys);
    PairsReadBack(fields, names);
    assert |names| == |fields.Keys| > 0;
    SplitOfJoin(PairsFor(fields, names), ',');
    assert Restrict(fields, names) == fields;
  }

  lemma FlagReadsBack(entity: string, fields: Fields)
    requires GoodName(entity) && ValidFields(fields) && fields != map[]
    ensures var split := SplitOnce(FlagFor(entity, fields), ':');
      split.Some? && Trim(split.value.0) == entity && ParsePairs(Split(split.value.1, ',')) == Ok(fields)
  {
    NameIsPlain(entity);
    FieldsReadBack(fields);
    hide GoodName, SplitOnce, Split, Join, Trim, ParsePairs, PairsFor, ValidFields;
    var pairs := Join(PairsFor(fields, SortedSeq(fields.Keys)), ',');
    assert FlagFor(entity, fields) == entity + [':'] + pairs;
    SplitOnceOfConcat(entity, ':', pairs);
  }

  lemma {:induction false} FlagsReadBack(entities: map<string, Fields>, names: seq<string>)
    requires ValidEntities(entities) && forall e :: e in names ==> e in entities
    ensures ParseFlags(FlagsFor(entities, names)) == Ok(Restrict(entities, names))
  {
    hide FlagFor, GoodName, SplitOnce, Split, Trim, ParsePairs;
    if names == [] {
      assert Restrict(entities, []) == map[];
    } else {
      var front, last := names[..|names| - 1], names[|names| - 1];
      assert names == front + [last];
      RestrictStep(entities, front, last);
      hide Restrict;
      FlagReadsBack(last, entities[last]);
      FlagsReadBack(entities, front);
      hide ValidEntities;
    }
  }

  /** Printing a description as flags and parsing them gives it back exactly when it is valid. */
  lemma RoundTripIffValid(spec: AppSpec)
    ensures FromEntityFlags(spec.name, PrintFlags(spec.entities)) == Ok(spec) <==> Valid(spec.entities)
  {
    hide ParseFlags, FlagsFor, FirstProblem, ValidEntities;
    var names := SortedSeq(spec.entities.Keys);
    if Valid(spec.entities) {
      FlagsReadBack(spec.entities, names);
      assert Restrict(spec.entities, names) == spec.entities;
    }
    NoProblemIffValid(spec.entities);
  }

  /** Whatever flags are accepted, printing what they were read as and parsing again changes nothing. */
  lemma AcceptedFlagsNormalise(name: string, flags: seq<string>)
    ensures match FromEntityFlags(name, flags)
      case Ok(spec) => Valid(spec.entities) && FromEntityFlags(name, PrintFlags(spec.entities)) == Ok(spec)
      case Err(_) => true
  {
    hide ParseFlags, FirstProblem, PrintFlags, ValidEntities;
    var r := FromEntityFlags(name, flags);
    if r.Ok? {
      NoProblemIffValid(r.value.entities);
      RoundTripIffValid(r.value);
    }
  }

  // ----- the programs themselves -----

  method ValidateFields(entity: string, fields: Fields) returns (problem: Option<Problem>)
    ensures problem == FieldsProblem(entity, fields, SortedSeq(fields.Keys))
  {
    hide IsIdent, IsKnownType;
    var columns := SortedSeq(fields.Keys);
    assert columns[0..] == columns;
    for j := 0 to |columns|
      invariant FieldsProblem(entity, fields, columns[j..]) == FieldsProblem(entity, fields, columns)
    {
      assert columns[j..][1..] == columns[j + 1..];
      var field := columns[j];
      if !IsIdent(field) || field == "id" {
        return Some(BadFieldName(entity, field));
      }
      if !IsKnownType(fields[field]) {
        return Some(UnknownType(entity, field, fields[field]));
      }
    }
    return None;
  }

  method Validate(entities: map<string, Fields>) returns (problem: Option<Problem>)
    ensures problem == FirstProblem(entities)
  {
    hide IsIdent, IsKnownType, FieldsProblem;
    if entities == map[] {
      return Some(NoEntities);
    }
    var names := SortedSeq(entities.Keys);
    assert names[0..] == names;
    for i := 0 to |names|
      invariant EntitiesProblem(entities, names[i..]) == EntitiesProblem(entities, names)
    {
      var entity, fields := names[i], entities[names[i]];
      assert names[i..][1..] == names[i + 1..];
      if !IsIdent(entity) {
        return Some(BadEntityName(entity));
      }
      if fields == map[] {
        return Some(NoFields(entity));
      }
      problem := ValidateFields(entity, fields);
      if problem.Some? {
        return;
      }
    }
    return None;
  }

  method ParseFieldPairs(pairs: seq<string>) returns (r: Result<Fields, Problem>)
    ensures r == ParsePairs(pairs)
  {
    hide SplitOnce, Trim;
    var parsed: Fields := map[];
    for i := 0 to |pairs|
      invariant ParsePairs(pairs[..i]) == Ok(parsed)
    {
      var pair := pairs[i];
      assert pairs[..i + 1][..i] == pairs[..i];
      if pair == "" {
        continue;
      }
      var split := SplitOnce(pair, '=');
      if split.None? {
        FirstBadPairDecides(pairs, i + 1);
        return Err(MissingEquals(pair));
      }
      parsed := parsed[Trim(split.value.0) := Trim(split.value.1)];
    }
    assert pairs[..|pairs|] == pairs;
    r := Ok(parsed);
  }

  lemma {:induction false} FirstBadPairDecides(pairs: seq<string>, i: nat)
    requires i <= |pairs| && ParsePairs(pairs[..i]).Err?
    ensures ParsePairs(pairs) == ParsePairs(pairs[..i])
  {
    if i == |pairs| {
      assert pairs[..i] == pairs;
    } else {
      assert pairs[..|pairs| - 1][..i] == pairs[..i];
      FirstBadPairDecides(pairs[..|pairs| - 1], i);
    }
  }

  lemma {:induction false} FirstBadFlagDecides(flags: seq<string>, i: nat)
    requires i <= |flags| && ParseFlags(flags[..i]).Err?
    ensures ParseFlags(flags) == ParseFlags(flags[..i])
  {
    if i == |flags| {
      assert flags[..i] == flags;
    } else {
      assert flags[..|flags| - 1][..i] == flags[..i];
      FirstBadFlagDecides(flags[..|flags| - 1], i);
    }
  }

  method ParseEntityFlags(name: string, flags: seq<string>) returns (r: Result<AppSpec, Problem>)
    ensures r == FromEntityFlags(name, flags)
  {
    hide SplitOnce, Split, Trim, ParsePairs, FirstProblem;
    var entities: map<string, Fields> := map[];
    for i := 0 to |flags|
      invariant ParseFlags(flags[..i]) == Ok(entities)
    {
      assert flags[..i + 1][..i] == flags[..i];
      var split := SplitOnce(flags[i], ':');
      if split.None? {
        FirstBadFlagDecides(flags, i + 1);
        return Err(MissingColon(flags[i]));
      }
      var parsed := ParseFieldPairs(Split(split.value.1, ','));
      if parsed.Err? {
        FirstBadFlagDecides(flags, i + 1);
        return Err(parsed.error);
      }
      entities := entities[Trim(split.value.0) := parsed.value];
    }
    assert flags[..|flags|] == flags;
    var problem := Validate(entities);
    r := if problem.Some? then Err(problem.value) else Ok(AppSpec(name, entities));
  }

  /** Each flag preceded by the option it is the value of. */
  function WithOption(flags: seq<string>): seq<string> {
    if flags == [] then [] else WithOption(flags[..|flags| - 1]) + ["--entity", flags[|flags| - 1]]
  }

  lemma PairsStep(fields: Fields, names: seq<string>, j: nat)
    requires j < |names| && forall f :: f in names ==> f in fields
    ensures PairsFor(fields, names[..j + 1]) == PairsFor(fields, names[..j]) + [names[j] + "=" + fields[names[j]]]
  {
    assert names[..j + 1][..j] == names[..j];
  }

  method FieldPairs(fields: Fields) returns (pairs: seq<string>)
    ensures pairs == PairsFor(fields, SortedSeq(fields.Keys))
  {
    pairs := [];
    var names := SortedSeq(fields.Keys);
    for j := 0 to |names|
      invariant pairs == PairsFor(fields, names[..j])
    {
      var pair := names[j] + "=" + fields[names[j]];
      PairsStep(fields, names, j);
      hide PairsFor;
      pairs := pairs + [pair];
    }
    assert names[..|names|] == names;
  }

  lemma NoFlags(entities: map<string, Fields>)
    ensures WithOption(FlagsFor(entities, [])) == []
  {
  }

  lemma WithOneMoreOption(flags: seq<string>, flag: string)
    ensures WithOption(flags + [flag]) == WithOption(flags) + ["--entity", flag]
  {
    assert (flags + [flag])[..|flags|] == flags;
  }

  lemma FlagsStep(entities: map<string, Fields>, names: seq<string>, i: nat)
    requires i < |names| && forall e :: e in names ==> e in entities
    ensures FlagsFor(entities, names[..i + 1]) == FlagsFor(entities, names[..i])
      + [FlagFor(names[i], entities[names[i]])]
  {
    assert names[..i + 1][..i] == names[..i];
  }

  method EntityFlag(entity: string, fields: Fields) returns (flag: string)
    ensures flag == FlagFor(entity, fields)
  {
    hide PairsFor, Join;
    var pairs := FieldPairs(fields);
    flag := entity + ":" + Join(pairs, ',');
  }

  method EntityArguments(entities: map<string, Fields>) returns (argv: seq<string>)
    ensures argv == WithOption(PrintFlags(entities))
  {
    hide WithOption, FlagsFor, FlagFor;
    argv := [];
    var names := SortedSeq(entities.Keys);
    NoFlags(entities);
    for i := 0 to |names|
      invariant argv == WithOption(FlagsFor(entities, names[..i]))
    {
      var flag := EntityFlag(names[i], entities[names[i]]);
      FlagsStep(entities, names, i);
      WithOneMoreOption(FlagsFor(entities, names[..i]), flag);
      argv := argv + ["--entity", flag];
    }
    assert names[..|names|] == names;
  }
}

/**
 * The pure helpers of Feature.kt: merging two object schemas (converge),
 * the nullability tests on patterns, and the step parsers for `export`
 * (setters), `enum` (parseEnum) and request/response headers
 * (plusHeaderPattern).
 */
module FeatureHelpers {
  import opened KotlinStd
  import opened Patterns

  // ---------------------------------------------------------------------
  // Optional keys and converge

  /** A key marked optional ends in '?'. */
  predicate IsOptional(key: string)
  {
    |key| > 0 && key[|key| - 1] == '?'
  }

  /** The key without its optionality marker. */
  function WithoutOptionality(key: string): (name: string)
    ensures IsOptional(key) ==> name + "?" == key
    ensures !IsOptional(key) ==> name == key
  {
    if IsOptional(key) then key[..|key| - 1] else key
  }

  /** The optional form of a key name. */
  function Optional(name: string): (key: string)
    ensures IsOptional(key) && WithoutOptionality(key) == name
  {
    name + "?"
  }

  function OptionalKey(key: string): string
  {
    Optional(WithoutOptionality(key))
  }

  /** The name occurs in m, marked optional or not. */
  predicate NameIn(name: string, m: map<string, Pattern>)
  {
    name in m || Optional(name) in m
  }

  /**
   * No key of m occurs both with and without the optionality marker, and no
   * key is marked optional twice.
   */
  predicate WellFormedKeys(m: map<string, Pattern>)
  {
    forall k :: k in m && IsOptional(k) ==>
      !IsOptional(WithoutOptionality(k)) && WithoutOptionality(k) !in m
  }

  /**
   * Kotlin's `mapKeys`: every entry under its renamed key. When two keys are
   * renamed alike, Kotlin keeps the later one in iteration order; the model
   * keeps one of them without saying which.
   */
  ghost function RenameKeys(m: map<string, Pattern>, rename: string -> string): (r: map<string, Pattern>)
    ensures forall k :: k in m ==> rename(k) in r
    ensures forall t :: t in r ==> exists k :: k in m && rename(k) == t
  {
    map t | t in Image(m, rename) :: m[Preimage(m, rename, t)]
  }

  ghost function Image(m: map<string, Pattern>, rename: string -> string): set<string>
  {
    set k | k in m :: rename(k)
  }

  ghost function Preimage(m: map<string, Pattern>, rename: string -> string, t: string): (k: string)
    requires t in Image(m, rename)
    ensures k in m && rename(k) == t
  {
    var k :| k in m && rename(k) == t; k
  }

  /** An entry whose new key no other entry shares keeps its pattern. */
  lemma RenameKeysValue(m: map<string, Pattern>, rename: string -> string, k: string)
    requires k in m
    requires forall k' :: k' in m && rename(k') == rename(k) ==> k' == k
    ensures rename(k) in RenameKeys(m, rename) && RenameKeys(m, rename)[rename(k)] == m[k]
  {
    assert rename(k) in Image(m, rename);
  }

  /** The key a shared entry of the first map takes: optional when either side marks it optional. */
  function CommonKey(key: string, other: map<string, Pattern>): string
  {
    var name := WithoutOptionality(key);
    if IsOptional(key) || Optional(name) in other then Optional(name) else name
  }

  function Shared(m1: map<string, Pattern>, m2: map<string, Pattern>): map<string, Pattern>
  {
    map k | k in m1 && NameIn(WithoutOptionality(k), m2) :: m1[k]
  }

  function Unshared(m: map<string, Pattern>, common: map<string, Pattern>): map<string, Pattern>
  {
    map k | k in m && !NameIn(WithoutOptionality(k), common) :: m[k]
  }

  ghost function CommonPart(m1: map<string, Pattern>, m2: map<string, Pattern>): map<string, Pattern>
  {
    RenameKeys(Shared(m1, m2), k => CommonKey(k, m2))
  }

  ghost function OnlyIn(m: map<string, Pattern>, common: map<string, Pattern>): map<string, Pattern>
  {
    RenameKeys(Unshared(m, common), OptionalKey)
  }

  /**
   * converge: merges two object schemas. Entries of the first map whose name
   * the second also has are kept, optional if either side marks them so; the
   * entries only one side has are added as optional.
   */
  ghost function Converge(m1: map<string, Pattern>, m2: map<string, Pattern>): map<string, Pattern>
  {
    var common := CommonPart(m1, m2);
    common + OnlyIn(m1, common) + OnlyIn(m2, common)
  }

  /** The pattern a map gives a name, whether the key is marked optional or not. */
  ghost function PatternOf(name: string, m: map<string, Pattern>): Pattern
    requires NameIn(name, m)
  {
    if name in m then m[name] else m[Optional(name)]
  }

  lemma CleanIs(k: string, name: string)
    requires !IsOptional(name)
    ensures WithoutOptionality(k) == name <==> k == name || k == Optional(name)
  {
  }

  lemma CommonPartKey(m1: map<string, Pattern>, m2: map<string, Pattern>, t: string)
    ensures t in CommonPart(m1, m2) <==>
      exists k :: k in m1 && NameIn(WithoutOptionality(k), m2) && CommonKey(k, m2) == t
  {
    var f := k => CommonKey(k, m2);
    if t in CommonPart(m1, m2) {
      var k :| k in Shared(m1, m2) && f(k) == t;
      assert k in m1 && NameIn(WithoutOptionality(k), m2) && CommonKey(k, m2) == t;
    }
    if exists k :: k in m1 && NameIn(WithoutOptionality(k), m2) && CommonKey(k, m2) == t {
      var k :| k in m1 && NameIn(WithoutOptionality(k), m2) && CommonKey(k, m2) == t;
      assert k in Shared(m1, m2) && f(k) == t;
    }
  }

  lemma OnlyInKey(m: map<string, Pattern>, common: map<string, Pattern>, t: string)
    ensures t in OnlyIn(m, common) <==>
      exists k :: k in m && !NameIn(WithoutOptionality(k), common) && OptionalKey(k) == t
  {
    if t in OnlyIn(m, common) {
      var k :| k in Unshared(m, common) && OptionalKey(k) == t;
      assert k in m && !NameIn(WithoutOptionality(k), common);
    }
    if exists k :: k in m && !NameIn(WithoutOptionality(k), common) && OptionalKey(k) == t {
      var k :| k in m && !NameIn(WithoutOptionality(k), common) && OptionalKey(k) == t;
      assert k in Unshared(m, common);
    }
  }

  /** Every key of an OnlyIn part is marked optional. */
  lemma OnlyInOptional(m: map<string, Pattern>, common: map<string, Pattern>, t: string)
    requires t in OnlyIn(m, common)
    ensures IsOptional(t)
  {
    OnlyInKey(m, common, t);
  }

  lemma CommonKeyName(k: string, m2: map<string, Pattern>, name: string)
    requires !IsOptional(name)
    requires CommonKey(k, m2) == name || CommonKey(k, m2) == Optional(name)
    ensures WithoutOptionality(k) == name
  {
  }

  /** A name is shared exactly when both maps have it. */
  lemma CommonPartNames(m1: map<string, Pattern>, m2: map<string, Pattern>, name: string)
    requires !IsOptional(name)
    ensures NameIn(name, CommonPart(m1, m2)) <==> NameIn(name, m1) && NameIn(name, m2)
  {
    var common := CommonPart(m1, m2);
    if NameIn(name, common) {
      var t := if name in common then name else Optional(name);
      CommonPartKey(m1, m2, t);
      var k :| k in m1 && NameIn(WithoutOptionality(k), m2) && CommonKey(k, m2) == t;
      CommonKeyName(k, m2, name);
      CleanIs(k, name);
    }
    if NameIn(name, m1) && NameIn(name, m2) {
      var k := if name in m1 then name else Optional(name);
      assert WithoutOptionality(k) == name;
      CommonPartKey(m1, m2, CommonKey(k, m2));
      assert CommonKey(k, m2) in common;
    }
  }

  /** A name only one side has ends up in the OnlyIn part of that side, marked optional. */
  lemma OnlyInNames(m: map<string, Pattern>, common: map<string, Pattern>, name: string)
    requires !IsOptional(name)
    ensures NameIn(name, OnlyIn(m, common)) <==> NameIn(name, m) && !NameIn(name, common)
    ensures name !in OnlyIn(m, common)
  {
    if name in OnlyIn(m, common) {
      OnlyInOptional(m, common, name);
    }
    if NameIn(name, OnlyIn(m, common)) {
      OnlyInKey(m, common, Optional(name));
      var k :| k in m && !NameIn(WithoutOptionality(k), common) && OptionalKey(k) == Optional(name);
      assert WithoutOptionality(k) == name;
      CleanIs(k, name);
    }
    if NameIn(name, m) && !NameIn(name, common) {
      var k := if name in m then name else Optional(name);
      OnlyInKey(m, common, OptionalKey(k));
    }
  }

  /** Converged names: a name is in the result exactly when it is in either map. */
  lemma ConvergeNames(m1: map<string, Pattern>, m2: map<string, Pattern>, name: string)
    requires !IsOptional(name)
    ensures NameIn(name, Converge(m1, m2)) <==> NameIn(name, m1) || NameIn(name, m2)
  {
    var common := CommonPart(m1, m2);
    CommonPartNames(m1, m2, name);
    OnlyInNames(m1, common, name);
    OnlyInNames(m2, common, name);
  }

  /** A required key survives only when both maps require it. */
  lemma ConvergeRequired(m1: map<string, Pattern>, m2: map<string, Pattern>, name: string)
    requires WellFormedKeys(m2) && !IsOptional(name)
    ensures name in Converge(m1, m2) <==> name in m1 && name in m2
  {
    var common := CommonPart(m1, m2);
    OnlyInNames(m1, common, name);
    OnlyInNames(m2, common, name);
    CommonPartKey(m1, m2, name);
    if name in common {
      var k :| k in m1 && NameIn(WithoutOptionality(k), m2) && CommonKey(k, m2) == name;
      CommonKeyName(k, m2, name);
      CleanIs(k, name);
    }
    if name in m1 && name in m2 {
      assert CommonKey(name, m2) == name;
    }
  }

  /** A name both maps have keeps the pattern of the first map. */
  lemma ConvergeShared(m1: map<string, Pattern>, m2: map<string, Pattern>, name: string)
    requires WellFormedKeys(m1) && WellFormedKeys(m2) && !IsOptional(name)
    requires NameIn(name, m1) && NameIn(name, m2)
    ensures NameIn(name, Converge(m1, m2))
    ensures PatternOf(name, Converge(m1, m2)) == PatternOf(name, m1)
  {
    var common := CommonPart(m1, m2);
    var r := Converge(m1, m2);
    var k := if name in m1 then name else Optional(name);
    var f := k => CommonKey(k, m2);
    var t := CommonKey(k, m2);
    forall k' | k' in Shared(m1, m2) && f(k') == f(k)
      ensures k' == k
    {
      CommonKeyName(k', m2, name);
      CleanIs(k', name);
    }
    RenameKeysValue(Shared(m1, m2), f, k);
    assert t in common && common[t] == m1[k];
    CommonPartNames(m1, m2, name);
    OnlyInNames(m1, common, name);
    OnlyInNames(m2, common, name);
    assert r[t] == m1[k];
    ConvergeRequired(m1, m2, name);
  }

  /** A name only the first map has becomes optional, with its pattern. */
  lemma ConvergeOnlyInFirst(m1: map<string, Pattern>, m2: map<string, Pattern>, name: string)
    requires WellFormedKeys(m1) && !IsOptional(name)
    requires NameIn(name, m1) && !NameIn(name, m2)
    ensures name !in Converge(m1, m2) && Optional(name) in Converge(m1, m2)
    ensures Converge(m1, m2)[Optional(name)] == PatternOf(name, m1)
  {
    var common := CommonPart(m1, m2);
    CommonPartNames(m1, m2, name);
    OnlyInNames(m1, common, name);
    OnlyInNames(m2, common, name);
    OnlyInValue(m1, common, name);
  }

  /** A name only the second map has becomes optional, with its pattern. */
  lemma ConvergeOnlyInSecond(m1: map<string, Pattern>, m2: map<string, Pattern>, name: string)
    requires WellFormedKeys(m2) && !IsOptional(name)
    requires !NameIn(name, m1) && NameIn(name, m2)
    ensures name !in Converge(m1, m2) && Optional(name) in Converge(m1, m2)
    ensures Converge(m1, m2)[Optional(name)] == PatternOf(name, m2)
  {
    var common := CommonPart(m1, m2);
    CommonPartNames(m1, m2, name);
    OnlyInNames(m1, common, name);
    OnlyInNames(m2, common, name);
    OnlyInValue(m2, common, name);
  }

  lemma OnlyInValue(m: map<string, Pattern>, common: map<string, Pattern>, name: string)
    requires WellFormedKeys(m) && !IsOptional(name)
    requires NameIn(name, m) && !NameIn(name, common)
    ensures Optional(name) in OnlyIn(m, common)
    ensures OnlyIn(m, common)[Optional(name)] == PatternOf(name, m)
  {
    var k := if name in m then name else Optional(name);
    assert WithoutOptionality(k) == name;
    forall k' | k' in Unshared(m, common) && OptionalKey(k') == OptionalKey(k)
      ensures k' == k
    {
      assert WithoutOptionality(OptionalKey(k')) == WithoutOptionality(k');
      CleanIs(k', name);
    }
    RenameKeysValue(Unshared(m, common), OptionalKey, k);
  }

  lemma CommonOptionalKey(m1: map<string, Pattern>, m2: map<string, Pattern>, t: string)
    requires WellFormedKeys(m1) && WellFormedKeys(m2)
    requires t in CommonPart(m1, m2) && IsOptional(t)
    ensures !IsOptional(WithoutOptionality(t)) && WithoutOptionality(t) !in Converge(m1, m2)
  {
    CommonPartKey(m1, m2, t);
    var k :| k in m1 && NameIn(WithoutOptionality(k), m2) && CommonKey(k, m2) == t;
    var name := WithoutOptionality(k);
    assert WithoutOptionality(t) == name;
    if IsOptional(k) {
      assert name !in m1;
    } else {
      assert Optional(name) in m2;
      assert name !in m2;
    }
    ConvergeRequired(m1, m2, name);
  }

  lemma OnlyInOptionalKey(m1: map<string, Pattern>, m2: map<string, Pattern>, m: map<string, Pattern>, t: string)
    requires WellFormedKeys(m1) && WellFormedKeys(m2) && WellFormedKeys(m)
    requires t in OnlyIn(m, CommonPart(m1, m2))
    ensures !IsOptional(WithoutOptionality(t)) && WithoutOptionality(t) !in Converge(m1, m2)
  {
    var common := CommonPart(m1, m2);
    OnlyInKey(m, common, t);
    var k :| k in m && !NameIn(WithoutOptionality(k), common) && OptionalKey(k) == t;
    var name := WithoutOptionality(k);
    assert WithoutOptionality(t) == name;
    CommonPartNames(m1, m2, name);
    ConvergeRequired(m1, m2, name);
  }

  /** converge keeps keys well formed. */
  lemma ConvergeWellFormed(m1: map<string, Pattern>, m2: map<string, Pattern>)
    requires WellFormedKeys(m1) && WellFormedKeys(m2)
    ensures WellFormedKeys(Converge(m1, m2))
  {
    forall t | t in Converge(m1, m2) && IsOptional(t)
      ensures !IsOptional(WithoutOptionality(t)) && WithoutOptionality(t) !in Converge(m1, m2)
    {
      var common := CommonPart(m1, m2);
      if t in common {
        CommonOptionalKey(m1, m2, t);
      } else if t in OnlyIn(m1, common) {
        OnlyInOptionalKey(m1, m2, m1, t);
      } else {
        OnlyInOptionalKey(m1, m2, m2, t);
      }
    }
  }

  // ---------------------------------------------------------------------
  // Nullability of patterns

  predicate HasEmptyAlias(p: Pattern)
  {
    p.typeAlias == Some(EmptyAlias)
  }

  predicate HasOtherAlias(p: Pattern)
  {
    !HasEmptyAlias(p)
  }

  /** isNullable: an AnyPattern one of whose alternatives is the "(empty)" sentinel. */
  predicate IsNullable(p: Pattern)
  {
    p.AnyPattern? && exists i :: 0 <= i < |p.alternatives| && HasEmptyAlias(p.alternatives[i])
  }

  /** The alternative at i is the first one that is not the sentinel. */
  predicate FirstRealAlternative(alternatives: seq<Pattern>, i: int)
  {
    0 <= i < |alternatives| && HasOtherAlias(alternatives[i]) &&
    forall j :: 0 <= j < i ==> HasEmptyAlias(alternatives[j])
  }

  /** isArrayOfNullables: a list whose element pattern is nullable. */
  predicate IsArrayOfNullables(p: Pattern)
  {
    p.ListPattern? && IsNullable(p.element)
  }

  /**
   * isNullableArray: a nullable pattern whose first real alternative is a
   * list. Kotlin's `first` throws when every alternative is the sentinel.
   */
  function IsNullableArray(p: Pattern): (r: Outcome<bool>)
    ensures r == Ok(true) <==> IsNullable(p) && exists i :: FirstRealAlternative(p.alternatives, i) && p.alternatives[i].ListPattern?
    ensures r.Thrown? <==> IsNullable(p) && forall i :: 0 <= i < |p.alternatives| ==> HasEmptyAlias(p.alternatives[i])
    ensures r.Thrown? ==> r.error == NoSuchElementException
  {
    if !IsNullable(p) then Ok(false)
    else
      match Find(p.alternatives, HasOtherAlias)
      case None => Thrown(NoSuchElementException)
      case Some(first) => Ok(first.ListPattern?)
  }

  /**
   * Whether a nullable pattern is a nullable array is decided by its first
   * alternative that is not the sentinel: the sentinels before it and every
   * alternative after it play no part.
   */
  lemma NullableArrayDecidedByFirstReal(sentinels: seq<Pattern>, first: Pattern, rest: seq<Pattern>, alias: Option<string>)
    requires forall i :: 0 <= i < |sentinels| ==> HasEmptyAlias(sentinels[i])
    requires HasOtherAlias(first)
    requires IsNullable(AnyPattern(sentinels + [first] + rest, alias))
    ensures IsNullableArray(AnyPattern(sentinels + [first] + rest, alias)) == Ok(first.ListPattern?)
  {
    var alternatives := sentinels + [first] + rest;
    assert forall j :: 0 <= j < |sentinels| ==> alternatives[j] == sentinels[j];
    assert alternatives[|sentinels|] == first;
    assert FirstRealAlternative(alternatives, |sentinels|);
  }

  // ---------------------------------------------------------------------
  // Step parsers

  /**
   * The pattern parser the step parsers call: `parsedPattern` on a type
   * text, and the resolution of a deferred pattern against an empty
   * resolver. Either may throw.
   */
  datatype PatternParser = PatternParser(parse: string -> Outcome<Pattern>, resolveDeferred: Pattern -> Outcome<Pattern>)

  /** A Gherkin step: its text after the keyword, and its line in the file. */
  datatype StepInfo = StepInfo(text: string, line: nat)

  function SetterSyntaxError(rest: string): string
  {
    "Setter syntax is incorrect in \"" + rest + "\". Syntax should be \"Then set <variable> = <selector>\""
  }

  /**
   * setters: `<variable> = <selector>` adds a setter; the scenario's setters
   * override the background's, and the new one overrides both.
   */
  function Setters(rest: string, backgroundSetters: map<string, string>, scenarioSetters: map<string, string>): (r: Outcome<map<string, string>>)
    ensures r.Thrown? ==> r.error == ContractException(SetterSyntaxError(rest))
    ensures r.Ok? ==>
      var parts := SplitSpaces(rest, 3);
      |parts| == 3 && parts[1] == "=" && NoRegexSpace(parts[0]) &&
      r.value.Keys == backgroundSetters.Keys + scenarioSetters.Keys + {parts[0]} &&
      r.value[parts[0]] == parts[2] &&
      (forall k :: k in scenarioSetters && k != parts[0] ==> r.value[k] == scenarioSetters[k]) &&
      (forall k :: k in backgroundSetters && k !in scenarioSetters && k != parts[0] ==> r.value[k] == backgroundSetters[k])
  {
    var parts := SplitSpaces(rest, 3);
    if |parts| != 3 || parts[1] != "=" then Thrown(ContractException(SetterSyntaxError(rest)))
    else Ok(backgroundSetters + scenarioSetters + map[parts[0] := parts[2]])
  }

  /** `v = selector` is read back as the setter v, whatever spaces the selector holds. */
  lemma SettersOfSyntax(v: string, selector: string, backgroundSetters: map<string, string>, scenarioSetters: map<string, string>)
    requires NoRegexSpace(v)
    requires selector == [] || !IsRegexSpace(selector[0])
    ensures Setters(v + " = " + selector, backgroundSetters, scenarioSetters) ==
      Ok(backgroundSetters + scenarioSetters + map[v := selector])
  {
    SetterParts(v, selector);
  }

  lemma SetterParts(v: string, selector: string)
    requires NoRegexSpace(v)
    requires selector == [] || !IsRegexSpace(selector[0])
    ensures SplitSpaces(v + " = " + selector, 3) == [v, "=", selector]
  {
    assert v + " = " + selector == v + " " + ("= " + selector);
    SetterHead(v, selector);
    SetterTail(selector);
  }

  lemma SetterHead(v: string, selector: string)
    requires NoRegexSpace(v)
    ensures SplitSpaces(v + " " + ("= " + selector), 3) == [v] + SplitSpaces("= " + selector, 2)
  {
    var tail := "= " + selector;
    assert tail[0] == '=';
    SplitSpacesStep(v, " ", tail, 3);
  }

  lemma SetterTail(selector: string)
    requires selector == [] || !IsRegexSpace(selector[0])
    ensures SplitSpaces("= " + selector, 2) == ["=", selector]
  {
    assert "= " + selector == "=" + " " + selector;
    assert NoRegexSpace("=");
    SplitSpacesStep("=", " ", selector, 2);
  }

  /** A single word is not a setter. */
  lemma SettersRejectOneWord(rest: string, backgroundSetters: map<string, string>, scenarioSetters: map<string, string>)
    requires NoRegexSpace(rest)
    ensures Setters(rest, backgroundSetters, scenarioSetters) == Thrown(ContractException(SetterSyntaxError(rest)))
  {
    SplitSpacesNoSpace(rest, 3);
  }

  function EnumSyntaxError(line: nat): string
  {
    "Enum syntax error in step at line " + NatToString(line) +
    ". Syntax should be Given(/When/Then) enum EnumName <TypeName> values choice1,choice2,choice3"
  }

  function NullableEnumError(enumName: string, enumType: string): string
  {
    "Enums " + enumName + " type " + enumType +
    " cannot be nullable. To mark the enum nullable please use it with nullable syntax. Suggested Usage: (" +
    enumName + "?)"
  }

  const EnumTypeError: string := "Enums can only be of type String or Number"

  /** The type of an enum: deferred types are resolved, nullable ones refused. */
  function EnumBaseType(enumName: string, enumType: string, parser: PatternParser): (r: Outcome<Pattern>)
    ensures parser.parse(enumType).Ok? && parser.parse(enumType).value.AnyPattern? ==>
      r == Thrown(ContractException(NullableEnumError(enumName, enumType)))
    ensures r.Ok? ==> parser.parse(enumType).Ok? && !parser.parse(enumType).value.AnyPattern?
  {
    match parser.parse(enumType)
    case Thrown(e) => Thrown(e)
    case Ok(p) =>
      if p.DeferredPattern? then parser.resolveDeferred(p)
      else if p.AnyPattern? then Thrown(ContractException(NullableEnumError(enumName, enumType)))
      else Ok(p)
  }

  /** One enum value as an exact value of the enum's type. */
  function EnumValue(base: Pattern, enumValue: string): (r: Outcome<Pattern>)
    ensures r.Ok? ==> r.value.ExactValuePattern? && r.value.typeAlias == None
    ensures base.StringPattern? ==> r == Ok(ExactValuePattern(StringValue(enumValue), None))
    ensures base.NumberPattern? && r.Ok? ==> r.value.value.NumberValue? && MinInt <= r.value.value.number <= MaxInt
    ensures !base.StringPattern? && !base.NumberPattern? ==> r == Thrown(ContractException(EnumTypeError))
  {
    match base
    case StringPattern(_) => Ok(ExactValuePattern(StringValue(enumValue), None))
    case NumberPattern(_) =>
      (match ToInt(enumValue)
       case Ok(n) => Ok(ExactValuePattern(NumberValue(n), None))
       case Thrown(e) => Thrown(e))
    case _ => Thrown(ContractException(EnumTypeError))
  }

  /** The value at i is the first one that cannot be converted, and fails with e. */
  predicate FirstFailingValue(base: Pattern, enumValues: seq<string>, i: int, e: Error)
  {
    0 <= i < |enumValues| && EnumValue(base, enumValues[i]) == Thrown(e) &&
    forall j :: 0 <= j < i ==> EnumValue(base, enumValues[j]).Ok?
  }

  /** The enum values in order; the first value that fails decides the error. */
  function EnumValues(base: Pattern, enumValues: seq<string>): (r: Outcome<seq<Pattern>>)
    ensures r.Ok? <==> forall i :: 0 <= i < |enumValues| ==> EnumValue(base, enumValues[i]).Ok?
    ensures r.Ok? ==> |r.value| == |enumValues|
    ensures r.Ok? ==> forall i :: 0 <= i < |enumValues| ==> EnumValue(base, enumValues[i]) == Ok(r.value[i])
    ensures r.Ok? ==> forall i :: 0 <= i < |r.value| ==> r.value[i].ExactValuePattern? && r.value[i].typeAlias == None
    ensures r.Thrown? ==> exists i :: FirstFailingValue(base, enumValues, i, r.error)
  {
    if enumValues == [] then Ok([])
    else
      match EnumValue(base, enumValues[0])
      case Thrown(e) =>
        assert FirstFailingValue(base, enumValues, 0, e);
        Thrown(e)
      case Ok(p) =>
        match EnumValues(base, enumValues[1..])
        case Thrown(e) =>
          FirstFailingShift(base, enumValues, e);
          Thrown(e)
        case Ok(ps) => Ok([p] + ps)
  }

  /** A later value failing first, after a first value that succeeds. */
  lemma FirstFailingShift(base: Pattern, enumValues: seq<string>, e: Error)
    requires |enumValues| > 0 && EnumValue(base, enumValues[0]).Ok?
    requires exists i :: FirstFailingValue(base, enumValues[1..], i, e)
    ensures exists i :: FirstFailingValue(base, enumValues, i, e)
  {
    var i :| FirstFailingValue(base, enumValues[1..], i, e);
    assert FirstFailingValue(base, enumValues, i + 1, e);
  }

  /**
   * parseEnum: `enum <name> <type> values v1,v2,...` declares the type
   * `(<name>)` as the choice among the exact values.
   */
  function ParseEnum(step: StepInfo, parser: PatternParser): (r: Outcome<(string, Pattern)>)
    ensures |SplitOn(step.text, ' ')| < 5 ==> r == Thrown(ContractException(EnumSyntaxError(step.line)))
    ensures r.Ok? ==>
      var tokens := SplitOn(step.text, ' ');
      |tokens| >= 5 && EnumBaseType(tokens[1], tokens[2], parser).Ok? &&
      r == EnumDeclaration(tokens[1], EnumBaseType(tokens[1], tokens[2], parser).value, SplitOn(tokens[4], ','))
  {
    var tokens := SplitOn(step.text, ' ');
    if |tokens| < 5 then Thrown(ContractException(EnumSyntaxError(step.line)))
    else
      var enumName := tokens[1];
      match EnumBaseType(enumName, tokens[2], parser)
      case Thrown(e) => Thrown(e)
      case Ok(base) => EnumDeclaration(enumName, base, SplitOn(tokens[4], ','))
  }

  /** The declaration of an enum once its base type is known: `(<name>)` and the choice among its values. */
  function EnumDeclaration(enumName: string, base: Pattern, enumValues: seq<string>): (r: Outcome<(string, Pattern)>)
    ensures r.Ok? <==> EnumValues(base, enumValues).Ok?
    ensures r.Ok? ==>
      r.value.0 == "(" + enumName + ")" &&
      r.value.1 == AnyPattern(EnumValues(base, enumValues).value, None) &&
      |r.value.1.alternatives| == |enumValues| &&
      (forall i :: 0 <= i < |r.value.1.alternatives| ==>
        r.value.1.alternatives[i].ExactValuePattern? && r.value.1.alternatives[i].typeAlias == None) &&
      !IsNullable(r.value.1)
  {
    match EnumValues(base, enumValues)
    case Thrown(e) => Thrown(e)
    case Ok(ps) =>
      assert forall i :: 0 <= i < |ps| ==> !HasEmptyAlias(ps[i]);
      Ok(("(" + enumName + ")", AnyPattern(ps, None)))
  }

  function StringChoices(values: seq<string>): (ps: seq<Pattern>)
  {
    seq(|values|, i requires 0 <= i < |values| => ExactValuePattern(StringValue(values[i]), None))
  }

  function NumberChoices(values: seq<nat>): (ps: seq<Pattern>)
  {
    seq(|values|, i requires 0 <= i < |values| => ExactValuePattern(NumberValue(values[i]), None))
  }

  predicate IsWord(s: string)
  {
    ' ' !in s && ',' !in s
  }

  /** The step text of an enum declaration. */
  function EnumStep(keyword: string, enumName: string, enumType: string, choices: seq<string>): string
  {
    Join([keyword, enumName, enumType, "values", Join(choices, ",")], " ")
  }

  lemma EnumStepTokens(keyword: string, enumName: string, enumType: string, choices: seq<string>)
    requires IsWord(keyword) && IsWord(enumName) && IsWord(enumType)
    requires |choices| >= 1 && forall i :: 0 <= i < |choices| ==> IsWord(choices[i])
    ensures SplitOn(EnumStep(keyword, enumName, enumType, choices), ' ') ==
      [keyword, enumName, enumType, "values", Join(choices, ",")]
    ensures SplitOn(Join(choices, ","), ',') == choices
  {
    assert forall i :: 0 <= i < |choices| ==> ' ' !in choices[i] && ',' !in choices[i];
    assert [','] == ",";
    JoinExcludes(choices, ",", ' ');
    EnumStepWords(keyword, enumName, enumType, Join(choices, ","));
    SplitOnJoin(choices, ',');
  }

  lemma EnumStepWords(keyword: string, enumName: string, enumType: string, last: string)
    requires IsWord(keyword) && IsWord(enumName) && IsWord(enumType) && ' ' !in last
    ensures SplitOn(Join([keyword, enumName, enumType, "values", last], " "), ' ') ==
      [keyword, enumName, enumType, "values", last]
  {
    var tokens := [keyword, enumName, enumType, "values", last];
    assert ' ' !in "values";
    assert forall i :: 0 <= i < |tokens| ==> ' ' !in tokens[i];
    SplitOnJoin(tokens, ' ');
  }

  lemma ParseEnumAccepts(step: StepInfo, parser: PatternParser, base: Pattern, ps: seq<Pattern>)
    requires |SplitOn(step.text, ' ')| >= 5
    requires EnumBaseType(SplitOn(step.text, ' ')[1], SplitOn(step.text, ' ')[2], parser) == Ok(base)
    requires EnumValues(base, SplitOn(SplitOn(step.text, ' ')[4], ',')) == Ok(ps)
    ensures ParseEnum(step, parser) == Ok(("(" + SplitOn(step.text, ' ')[1] + ")", AnyPattern(ps, None)))
  {
  }

  lemma StringEnumValues(choices: seq<string>, alias: Option<string>)
    ensures EnumValues(StringPattern(alias), choices) == Ok(StringChoices(choices))
  {
    var r := EnumValues(StringPattern(alias), choices);
    assert r.Ok?;
    assert r.value == StringChoices(choices);
  }

  lemma NumberEnumValues(choices: seq<nat>, alias: Option<string>)
    requires forall i :: 0 <= i < |choices| ==> choices[i] <= MaxInt
    ensures EnumValues(NumberPattern(alias), NumberTexts(choices)) == Ok(NumberChoices(choices))
  {
    var texts := NumberTexts(choices);
    forall i | 0 <= i < |texts|
      ensures EnumValue(NumberPattern(alias), texts[i]) == Ok(NumberChoices(choices)[i])
    {
      ToIntOfNatToString(choices[i]);
    }
    var r := EnumValues(NumberPattern(alias), texts);
    assert r.Ok?;
    assert r.value == NumberChoices(choices);
  }

  function NumberTexts(choices: seq<nat>): (texts: seq<string>)
    ensures |texts| == |choices|
    ensures forall i :: 0 <= i < |texts| ==> IsWord(texts[i])
  {
    seq(|choices|, i requires 0 <= i < |choices| => NatToString(choices[i]))
  }

  /** An enum of strings declares exactly its choices, in order. */
  lemma ParseStringEnum(keyword: string, enumName: string, enumType: string, choices: seq<string>, line: nat,
                        parser: PatternParser, alias: Option<string>)
    requires IsWord(keyword) && IsWord(enumName) && IsWord(enumType)
    requires |choices| >= 1 && forall i :: 0 <= i < |choices| ==> IsWord(choices[i])
    requires parser.parse(enumType) == Ok(StringPattern(alias))
    ensures ParseEnum(StepInfo(EnumStep(keyword, enumName, enumType, choices), line), parser) ==
      Ok(("(" + enumName + ")", AnyPattern(StringChoices(choices), None)))
  {
    EnumStepTokens(keyword, enumName, enumType, choices);
    StringEnumValues(choices, alias);
    ParseEnumAccepts(StepInfo(EnumStep(keyword, enumName, enumType, choices), line), parser, StringPattern(alias), StringChoices(choices));
  }

  /** An enum of numbers declares exactly its choices, in order. */
  lemma ParseNumberEnum(keyword: string, enumName: string, enumType: string, choices: seq<nat>, line: nat,
                        parser: PatternParser, alias: Option<string>)
    requires IsWord(keyword) && IsWord(enumName) && IsWord(enumType)
    requires |choices| >= 1 && forall i :: 0 <= i < |choices| ==> choices[i] <= MaxInt
    requires parser.parse(enumType) == Ok(NumberPattern(alias))
    ensures ParseEnum(StepInfo(EnumStep(keyword, enumName, enumType, NumberTexts(choices)), line), parser) ==
      Ok(("(" + enumName + ")", AnyPattern(NumberChoices(choices), None)))
  {
    var texts := NumberTexts(choices);
    EnumStepTokens(keyword, enumName, enumType, texts);
    NumberEnumValues(choices, alias);
    ParseEnumAccepts(StepInfo(EnumStep(keyword, enumName, enumType, texts), line), parser, NumberPattern(alias), NumberChoices(choices));
  }

  /** A nullable type is refused, whatever the values. */
  lemma ParseEnumRefusesNullable(step: StepInfo, parser: PatternParser)
    requires |SplitOn(step.text, ' ')| >= 5
    requires var t := parser.parse(SplitOn(step.text, ' ')[2]); t.Ok? && t.value.AnyPattern?
    ensures var tokens := SplitOn(step.text, ' ');
      ParseEnum(step, parser) == Thrown(ContractException(NullableEnumError(tokens[1], tokens[2])))
  {
  }

  function HeaderValueError(name: string): string
  {
    "Header " + name + " should have a value"
  }

  /**
   * plusHeaderPattern: `<name> <type>` adds a header pattern. Splitting at
   * most once gives one or two parts, so the branch for any other count is
   * unreachable and not modelled.
   */
  function PlusHeaderPattern(rest: string, headers: HttpHeadersPattern, parser: PatternParser): (r: Outcome<HttpHeadersPattern>)
    ensures r.Ok? ==>
      var parts := SplitSpaces(rest, 2);
      |parts| == 2 && NoRegexSpace(parts[0]) && parser.parse(parts[1]).Ok? &&
      r.value == headers.(pattern := headers.pattern[parts[0] := parser.parse(parts[1]).value])
    ensures NoRegexSpace(rest) ==> r == Thrown(ContractException(HeaderValueError(rest)))
  {
    var parts := SplitSpaces(rest, 2);
    if |parts| == 2 then
      match parser.parse(parts[1])
      case Thrown(e) => Thrown(e)
      case Ok(p) => Ok(headers.(pattern := headers.pattern[parts[0] := p]))
    else
      SplitSpacesNoSpaceOrTwo(rest);
      Thrown(ContractException(HeaderValueError(parts[0])))
  }

  lemma SplitSpacesNoSpaceOrTwo(rest: string)
    ensures NoRegexSpace(rest) ==> SplitSpaces(rest, 2) == [rest]
  {
    if NoRegexSpace(rest) {
      SplitSpacesNoSpace(rest, 2);
    }
  }

  /** `<name> <type>` declares the header name with the parsed type, even when the type holds spaces. */
  lemma PlusHeaderPatternOf(name: string, typeText: string, headers: HttpHeadersPattern, parser: PatternParser)
    requires NoRegexSpace(name)
    requires typeText == [] || !IsRegexSpace(typeText[0])
    ensures var r := PlusHeaderPattern(name + " " + typeText, headers, parser);
      match parser.parse(typeText)
      case Ok(p) => r == Ok(headers.(pattern := headers.pattern[name := p]))
      case Thrown(e) => r == Thrown(e)
  {
    SplitSpacesStep(name, " ", typeText, 2);
  }

  /** Kotlin's `List.toString()`. */
  function ListToString(parts: seq<string>): string
  {
    "[" + Join(parts, ", ") + "]"
  }

  /**
   * plusHeaderPattern as written: the message template interpolates the
   * whole parts list and then the literal text "[0]".
   */
  function PlusHeaderPatternAsWritten(rest: string, headers: HttpHeadersPattern, parser: PatternParser): (r: Outcome<HttpHeadersPattern>)
    ensures SplitSpaces(rest, 2) == [rest] ==> r == Thrown(ContractException("Header " + ListToString([rest]) + "[0] should have a value"))
  {
    var parts := SplitSpaces(rest, 2);
    if |parts| == 2 then
      match parser.parse(parts[1])
      case Thrown(e) => Thrown(e)
      case Ok(p) => Ok(headers.(pattern := headers.pattern[parts[0] := p]))
    else
      Thrown(ContractException("Header " + ListToString(parts) + "[0] should have a value"))
  }

  /** A header without a value: the message wraps the name in the list's brackets and adds "[0]". */
  lemma PlusHeaderPatternAsWrittenNoValue(rest: string, headers: HttpHeadersPattern, parser: PatternParser)
    requires NoRegexSpace(rest)
    ensures PlusHeaderPatternAsWritten(rest, headers, parser) ==
      Thrown(ContractException("Header [" + rest + "][0] should have a value"))
    ensures PlusHeaderPattern(rest, headers, parser) == Thrown(ContractException("Header " + rest + " should have a value"))
  {
    SplitSpacesNoSpace(rest, 2);
    assert ListToString([rest]) == "[" + rest + "]";
    assert "Header " + ("[" + rest + "]") + "[0] should have a value" == "Header [" + rest + "][0] should have a value";
  }

  /** For every one-word header, as written and corrected messages differ: the former is five characters longer. */
  lemma PlusHeaderPatternAsWrittenDiffers(rest: string, headers: HttpHeadersPattern, parser: PatternParser)
    requires NoRegexSpace(rest)
    ensures PlusHeaderPatternAsWritten(rest, headers, parser) != PlusHeaderPattern(rest, headers, parser)
  {
    PlusHeaderPatternAsWrittenNoValue(rest, headers, parser);
    assert |"Header [" + rest + "][0] should have a value"| == |"Header " + rest + " should have a value"| + 5;
  }
}

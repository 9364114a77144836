/**
 * What each keyword of tools/phase2/json-schema.ts accepts, stated on the value itself, and the law
 * that a schema means all its keywords at once.
 */
module JsonKeywords {
  import opened Options
  import opened JsonValues
  import opened JsonSchema
  import opened JsonValidator

  /** The schema that holds one keyword. */
  function One(key: string, x: Json): Json {
    Obj([Member(key, x)])
  }

  lemma FieldOfOne(key: string, x: Json)
    ensures forall q :: Field(One(key, x), q) == if q == key then Some(x) else None
  {
    forall q ensures Field(One(key, x), q) == if q == key then Some(x) else None {
      assert [Member(key, x)][1..] == [];
    }
  }

  /** The keywords that speak of the value itself. */
  datatype Keyword =
    | Type | Const | Enum | MinLength | Pattern | Format | Minimum | ExclusiveMinimum | Maximum
    | MinItems | MaxItems | UniqueItems | Required

  function Text(k: Keyword): string {
    match k
    case Type => "type" case Const => "const" case Enum => "enum" case MinLength => "minLength" case Pattern => "pattern"
    case Format => "format" case Minimum => "minimum" case ExclusiveMinimum => "exclusiveMinimum" case Maximum => "maximum"
    case MinItems => "minItems" case MaxItems => "maxItems" case UniqueItems => "uniqueItems" case Required => "required"
  }

  /** A number read off a keyword, different for every keyword. */
  function Mark(text: string): int {
    if |text| < 4 then 0 else |text| * 1000000 + (text[1] as int) * 1000 + text[3] as int
  }

  lemma MarksOfTexts(k: Keyword)
    ensures Mark(Text(k)) == match k
                             case Type => 4121101 case Const => 5111115 case Enum => 4110109 case MinLength => 9105076 case Pattern => 7097116
                             case Format => 6111109 case Minimum => 7105105 case ExclusiveMinimum => 16120108 case Maximum => 7097105
                             case MinItems => 8105073 case MaxItems => 8097073 case UniqueItems => 11110113 case Required => 8101117
  {
  }

  /** The keywords are different strings, and none of them replaces the schema or descends into the value. */
  lemma TextsDiffer(k: Keyword)
    ensures forall other :: Text(other) == Text(k) ==> other == k
    ensures Text(k) !in {"$ref", "anyOf", "oneOf", "items", "properties", "additionalProperties"}
  {
    forall other | Text(other) == Text(k) ensures other == k {
      MarksOfTexts(k);
      MarksOfTexts(other);
    }
    MarksOfTexts(k);
    assert Mark("$ref") == 4114102 && Mark("anyOf") == 5110079 && Mark("oneOf") == 5110079 && Mark("items") == 5116109;
    assert Mark("properties") == 10114112 && Mark("additionalProperties") == 20100105;
  }

  // ---- One keyword at a time ----

  /** The seven type names. */
  ghost predicate IsOfType(v: Json, name: string) {
    || (v.Null? && name == "null")
    || (v.Bool? && name == "boolean")
    || (v.Str? && name == "string")
    || (v.Num? && name == "number")
    || (v.Num? && name == "integer" && exists i: int {:trigger i as real} :: i as real == v.n)
    || (v.Arr? && name == "array")
    || (v.Obj? && name == "object")
  }

  /**
   * What the keyword with argument `x` asks of a value. An argument of the wrong kind asks nothing, and
   * no keyword but the first three asks anything of values of another kind.
   */
  ghost predicate Means(k: Keyword, x: Json, v: Json, l: Language) {
    match k
    case Type =>
      && (x.Str? ==> IsOfType(v, x.s))
      && (x.Arr? ==> (forall i :: 0 <= i < |x.items| ==> !x.items[i].Str?)
                     || exists i :: 0 <= i < |x.items| && x.items[i].Str? && IsOfType(v, x.items[i].s))
    case Const => v == x
    case Enum => x.Arr? ==> exists i :: 0 <= i < |x.items| && x.items[i] == v
    case MinLength => x.Num? && v.Str? ==> |v.s| as real >= x.n
    case Pattern => x.Str? && v.Str? ==> l.matches(x.s, v.s)
    case Format => x == Str("date-time") && v.Str? ==> l.isDateTime(v.s)
    case Minimum => x.Num? && v.Num? ==> v.n >= x.n
    case ExclusiveMinimum => x.Num? && v.Num? ==> v.n > x.n
    case Maximum => x.Num? && v.Num? ==> v.n <= x.n
    case MinItems => x.Num? && v.Arr? ==> |v.items| as real >= x.n
    case MaxItems => x.Num? && v.Arr? ==> |v.items| as real <= x.n
    case UniqueItems => x == Bool(true) && v.Arr? ==> forall i, j :: 0 <= i < j < |v.items| ==> v.items[i] != v.items[j]
    case Required =>
      x.Arr? && v.Obj? ==>
        forall i :: 0 <= i < |x.items| && x.items[i].Str? ==> exists j :: 0 <= j < |v.members| && v.members[j].key == x.items[i].s
  }

  /** The keyword is absent, or means what it should. */
  ghost predicate Met(k: Keyword, s: Json, v: Json, l: Language) {
    Field(s, Text(k)).Some? ==> Means(k, Field(s, Text(k)).value, v, l)
  }

  lemma {:induction false} StringsAre(items: seq<Json>)
    ensures forall t :: t in Strings(items) <==> exists i :: 0 <= i < |items| && items[i] == Str(t)
  {
    if items != [] {
      StringsAre(items[1..]);
      forall t ensures t in Strings(items) <==> exists i :: 0 <= i < |items| && items[i] == Str(t) {
        if i :| 0 <= i < |items| && items[i] == Str(t) && i > 0 { assert items[1..][i - 1] == Str(t); }
        if t in Strings(items[1..]) {
          var i :| 0 <= i < |items[1..]| && items[1..][i] == Str(t);
          assert items[i + 1] == Str(t);
        }
      }
    }
  }

  lemma TypeNames(v: Json)
    ensures forall name :: IsOfType(v, name) <==> TypeMatches(name, v)
  {
    if v.Num? && v.n == v.n.Floor as real { assert v.n.Floor as real == v.n; }
  }

  lemma TypeIsMet(s: Json, v: Json, l: Language)
    ensures TypeOk(s, v) <==> Met(Type, s, v, l)
  {
    TypeNames(v);
    hide IsOfType, TypeMatches;
    match Field(s, "type") {
      case Some(Str(name)) => assert TypesOf(s)[0] == name;
      case Some(Arr(names)) =>
        assert TypesOf(s) == Strings(names);
        InList(names, v);
      case _ =>
    }
  }

  lemma InList(names: seq<Json>, v: Json)
    ensures Strings(names) == [] <==> forall i :: 0 <= i < |names| ==> !names[i].Str?
    ensures (exists i :: 0 <= i < |Strings(names)| && TypeMatches(Strings(names)[i], v))
            <==> exists i :: 0 <= i < |names| && names[i].Str? && IsOfType(v, names[i].s)
  {
    StringsAre(names);
    TypeNames(v);
    hide IsOfType, TypeMatches, Strings;
    var texts := Strings(names);
    assert texts != [] ==> texts[0] in texts;
    if i :| 0 <= i < |texts| && TypeMatches(texts[i], v) { assert texts[i] in texts; }
    if i :| 0 <= i < |names| && names[i].Str? && IsOfType(v, names[i].s) { assert names[i].s in texts; }
    if i :| 0 <= i < |names| && names[i].Str? { assert names[i].s in texts; }
  }

  lemma ConstAndEnumAreMet(s: Json, v: Json, l: Language)
    ensures ConstOk(s, v) <==> Met(Const, s, v, l)
    ensures EnumOk(s, v) <==> Met(Enum, s, v, l)
  {
    hide Get;
  }

  lemma TextKeywordsAreMet(s: Json, v: Json, l: Language)
    ensures (v.Str? ==> MinLengthOk(s, v.s)) <==> Met(MinLength, s, v, l)
    ensures (v.Str? ==> PatternOk(s, v.s, l)) <==> Met(Pattern, s, v, l)
    ensures (v.Str? ==> FormatOk(s, v.s, l)) <==> Met(Format, s, v, l)
  {
    hide Get;
  }

  lemma NumberKeywordsAreMet(s: Json, v: Json, l: Language)
    ensures (v.Num? ==> MinimumOk(s, v.n)) <==> Met(Minimum, s, v, l)
    ensures (v.Num? ==> ExclusiveMinimumOk(s, v.n)) <==> Met(ExclusiveMinimum, s, v, l)
    ensures (v.Num? ==> MaximumOk(s, v.n)) <==> Met(Maximum, s, v, l)
  {
    hide Get;
  }

  lemma CountKeywordsAreMet(s: Json, v: Json, l: Language)
    ensures (v.Arr? ==> MinItemsOk(s, |v.items|)) <==> Met(MinItems, s, v, l)
    ensures (v.Arr? ==> MaxItemsOk(s, |v.items|)) <==> Met(MaxItems, s, v, l)
  {
    hide Get;
  }

  lemma UniqueItemsIsMet(s: Json, v: Json, l: Language)
    ensures (v.Arr? ==> UniqueOk(s, v.items)) <==> Met(UniqueItems, s, v, l)
  {
    hide Get;
  }

  lemma RequiredIsMet(s: Json, v: Json, l: Language)
    ensures (v.Obj? ==> forall i :: 0 <= i < |RequiredKeys(s)| ==> Get(v.members, RequiredKeys(s)[i]).Some?) <==> Met(Required, s, v, l)
  {
    match Field(s, "required") {
      case Some(Arr(names)) =>
        assert RequiredKeys(s) == Strings(names);
        if v.Obj? { AllPresent(names, v.members); }
        hide Get, Strings, RequiredKeys;
      case _ => assert RequiredKeys(s) == [];
    }
  }

  lemma AllPresent(names: seq<Json>, members: seq<Member>)
    ensures (forall i :: 0 <= i < |Strings(names)| ==> Get(members, Strings(names)[i]).Some?)
            <==> forall i :: 0 <= i < |names| && names[i].Str? ==> exists j :: 0 <= j < |members| && members[j].key == names[i].s
  {
    StringsAre(names);
    assert forall key :: Get(members, key).Some? <==> exists j :: 0 <= j < |members| && members[j].key == key;
    hide Strings, Get;
    assert forall i :: 0 <= i < |Strings(names)| ==> Strings(names)[i] in Strings(names);
    assert forall i :: 0 <= i < |names| && names[i].Str? ==> names[i].s in Strings(names);
  }

  /** What a schema says about the value itself is what its keywords mean. */
  lemma LocalIsAllMet(s: Json, v: Json, l: Language)
    ensures LocalOk(s, v, l) <==> forall k :: Met(k, s, v, l)
  {
    TypeIsMet(s, v, l);
    ConstAndEnumAreMet(s, v, l);
    TextKeywordsAreMet(s, v, l);
    NumberKeywordsAreMet(s, v, l);
    CountKeywordsAreMet(s, v, l);
    UniqueItemsIsMet(s, v, l);
    RequiredIsMet(s, v, l);
    hide Met, TypeOk, ConstOk, EnumOk, MinLengthOk, PatternOk, FormatOk, MinimumOk, ExclusiveMinimumOk, MaximumOk, MinItemsOk, MaxItemsOk, UniqueOk;
    hide RequiredKeys, Get;
    if LocalOk(s, v, l) {
      forall k ensures Met(k, s, v, l) {
        match k
        case Type => case Const => case Enum => case MinLength => case Pattern => case Format =>
        case Minimum => case ExclusiveMinimum => case Maximum =>
        case MinItems => case MaxItems => case UniqueItems => case Required =>
      }
    }
  }

  /** A keyword that neither replaces nor descends decides by what it says about the value itself. */
  lemma OneIsLocal(key: string, x: Json, v: Json, root: Json, stack: set<string>, l: Language)
    requires Contained(One(key, x), root)
    requires key !in {"$ref", "anyOf", "oneOf", "items", "properties", "additionalProperties"}
    ensures Valid(One(key, x), v, root, stack, l) <==> LocalOk(One(key, x), v, l)
  {
    FieldOfOne(key, x);
    var s := One(key, x);
    assert FormOf(s).IsPlain? && ItemSchema(s).None? && forall k :: PropertySchema(s, k).None?;
    assert !ForbidsAdditional(s);
    ValidOfPlain(s, v, root, stack, l);
    hide Valid, LocalOk, FormOf, ItemSchema, PropertySchema, ForbidsAdditional;
  }

  /** A schema of one keyword accepts exactly the values the keyword means. */
  lemma KeywordLaw(k: Keyword, x: Json, v: Json, root: Json, stack: set<string>, l: Language)
    requires Contained(One(Text(k), x), root)
    ensures Valid(One(Text(k), x), v, root, stack, l) <==> Means(k, x, v, l)
  {
    var s := One(Text(k), x);
    TextsDiffer(k);
    OneIsLocal(Text(k), x, v, root, stack, l);
    LocalIsAllMet(s, v, l);
    FieldOfOne(Text(k), x);
    hide Valid, LocalOk, Means, Text, Field, Contained, Refs;
    assert Met(k, s, v, l) <==> Means(k, x, v, l);
    assert forall other :: other != k ==> Met(other, s, v, l);
  }

  /** Any other key says nothing. */
  lemma UnknownLaw(key: string, x: Json, v: Json, root: Json, stack: set<string>, l: Language)
    requires Contained(One(key, x), root)
    requires key !in {"$ref", "anyOf", "oneOf", "items", "properties", "additionalProperties"} && forall k :: Text(k) != key
    ensures Valid(One(key, x), v, root, stack, l)
  {
    FieldOfOne(key, x);
    OneIsLocal(key, x, v, root, stack, l);
    LocalIsAllMet(One(key, x), v, l);
    hide Valid, LocalOk, Means, Text, Field;
  }

  // ---- Keywords that descend, and those that replace the schema ----

  /** `items` asks its schema of every item, if it is a schema at all. */
  lemma ItemsLaw(x: Json, v: Json, root: Json, stack: set<string>, l: Language)
    requires Contained(One("items", x), root) && (x.Obj? ==> Contained(x, root))
    ensures Valid(One("items", x), v, root, stack, l)
            <==> (x.Obj? && v.Arr? ==> forall i :: 0 <= i < |v.items| ==> Valid(x, v.items[i], root, stack, l))
  {
    var s := One("items", x);
    FieldOfOne("items", x);
    DescendingTexts();
    DescendingIsPlain("items", x);
    ValidOfPlain(s, v, root, stack, l);
    NothingLocal("items", x, v, l);
    hide Valid, LocalOk, FormOf, Contained, Refs;
  }

  lemma DescendingTexts()
    ensures forall k :: Text(k) !in {"items", "properties", "additionalProperties"}
  {
    forall k ensures Text(k) !in {"items", "properties", "additionalProperties"} { TextsDiffer(k); }
  }

  lemma DescendingIsPlain(key: string, x: Json)
    requires key == "items" || key == "properties" || key == "additionalProperties"
    ensures FormOf(One(key, x)).IsPlain?
  {
    FieldOfOne(key, x);
    assert "items"[0] != "anyOf"[0] && "items"[0] != "oneOf"[0];
  }

  /** A schema without the keywords that speak of the value itself says nothing about it. */
  lemma NothingLocal(key: string, x: Json, v: Json, l: Language)
    requires key == "items" || key == "properties" || key == "additionalProperties"
    ensures LocalOk(One(key, x), v, l)
  {
    FieldOfOne(key, x);
    DescendingTexts();
    LocalIsAllMet(One(key, x), v, l);
    hide LocalOk, Means, Field, Text;
  }

  ghost predicate DistinctKeys(members: seq<Member>) {
    forall i, j :: 0 <= i < j < |members| ==> members[i].key != members[j].key
  }

  lemma GetOfDistinct(members: seq<Member>, i: nat)
    requires DistinctKeys(members) && i < |members|
    ensures Get(members, members[i].key) == Some(members[i].value)
  {
    var found := Get(members, members[i].key);
    assert found.Some?;
    var j :| 0 <= j < |members| && members[j] == Member(members[i].key, found.value);
    assert j == i;
  }

  /** Every member whose key has a schema meets it. */
  ghost predicate MembersMeet(schemas: seq<Member>, members: seq<Member>, root: Json, stack: set<string>, l: Language)
    requires forall k :: 0 <= k < |schemas| && schemas[k].value.Obj? ==> Contained(schemas[k].value, root)
  {
    forall j :: 0 <= j < |members| ==> MemberMeets(schemas, members[j], root, stack, l)
  }

  /** Every member's key has a schema. */
  predicate NoneAdditional(schemas: seq<Member>, members: seq<Member>) {
    forall j :: 0 <= j < |members| ==> HasSchema(schemas, members[j])
  }

  /**
   * `properties` and `additionalProperties` together: each member meets the schema its key has, and if
   * additional ones are forbidden each key has one.
   */
  lemma PropertiesMean(s: Json, schemas: seq<Member>, v: Json, root: Json, stack: set<string>, l: Language)
    requires Contained(s, root) && DistinctKeys(schemas)
    requires forall k :: 0 <= k < |schemas| && schemas[k].value.Obj? ==> Contained(schemas[k].value, root)
    requires Field(s, "properties") == Some(Obj(schemas)) || (schemas == [] && !(Field(s, "properties").Some? && Field(s, "properties").value.Obj?))
    requires v.Obj?
    ensures MembersValid(s, v.members, root, stack, l)
            <==> MembersMeet(schemas, v.members, root, stack, l)
                 && (Field(s, "additionalProperties") == Some(Bool(false)) ==> NoneAdditional(schemas, v.members))
  {
    PartsAreContained(s, root);
    hide Valid, Contained, Refs;
    forall key ensures PropertySchema(s, key).Some? <==> exists k :: 0 <= k < |schemas| && schemas[k].key == key && schemas[k].value.Obj? {
      SchemaOf(s, schemas, key);
    }
    forall k | 0 <= k < |schemas| && schemas[k].value.Obj? ensures PropertySchema(s, schemas[k].key) == Some(schemas[k].value) {
      SchemaOf(s, schemas, schemas[k].key);
      GetOfDistinct(schemas, k);
    }
    hide PropertySchema, Field, Get;
    forall j | 0 <= j < |v.members|
      ensures MemberValid(s, v.members[j], root, stack, l)
              <==> MemberMeets(schemas, v.members[j], root, stack, l) && (ForbidsAdditional(s) ==> HasSchema(schemas, v.members[j]))
    {
      var property := PropertySchema(s, v.members[j].key);
      if property.Some? {
        var k :| 0 <= k < |schemas| && schemas[k].key == v.members[j].key && schemas[k].value.Obj?;
        assert property == Some(schemas[k].value);
      }
    }
  }

  ghost predicate MemberMeets(schemas: seq<Member>, m: Member, root: Json, stack: set<string>, l: Language)
    requires forall k :: 0 <= k < |schemas| && schemas[k].value.Obj? ==> Contained(schemas[k].value, root)
  {
    forall k :: 0 <= k < |schemas| && schemas[k].key == m.key && schemas[k].value.Obj? ==> Valid(schemas[k].value, m.value, root, stack, l)
  }

  predicate HasSchema(schemas: seq<Member>, m: Member) {
    exists k :: 0 <= k < |schemas| && schemas[k].key == m.key && schemas[k].value.Obj?
  }

  lemma SchemaOf(s: Json, schemas: seq<Member>, key: string)
    requires DistinctKeys(schemas)
    requires Field(s, "properties") == Some(Obj(schemas)) || (schemas == [] && !(Field(s, "properties").Some? && Field(s, "properties").value.Obj?))
    ensures PropertySchema(s, key).Some? <==> exists k :: 0 <= k < |schemas| && schemas[k].key == key && schemas[k].value.Obj?
    ensures schemas != [] && Get(schemas, key).Some? && Get(schemas, key).value.Obj? ==> PropertySchema(s, key) == Get(schemas, key)
  {
    if k :| 0 <= k < |schemas| && schemas[k].key == key && schemas[k].value.Obj? { GetOfDistinct(schemas, k); }
  }

  lemma PropertiesLaw(schemas: seq<Member>, v: Json, root: Json, stack: set<string>, l: Language)
    requires Contained(One("properties", Obj(schemas)), root) && DistinctKeys(schemas)
    requires forall k :: 0 <= k < |schemas| && schemas[k].value.Obj? ==> Contained(schemas[k].value, root)
    ensures Valid(One("properties", Obj(schemas)), v, root, stack, l) <==> (v.Obj? ==> MembersMeet(schemas, v.members, root, stack, l))
  {
    var s := One("properties", Obj(schemas));
    FieldOfOne("properties", Obj(schemas));
    DescendingIsPlain("properties", Obj(schemas));
    ValidOfPlain(s, v, root, stack, l);
    NothingLocal("properties", Obj(schemas), v, l);
    assert ItemSchema(s).None? && Field(s, "additionalProperties") == None && Field(s, "properties") == Some(Obj(schemas));
    hide Valid, LocalOk, FormOf, Contained, Refs, Field, ItemSchema, One, MembersMeet, MembersValid;
    if v.Obj? { PropertiesMean(s, schemas, v, root, stack, l); }
  }

  /** By itself `additionalProperties: false` accepts only objects without members. */
  lemma AdditionalPropertiesLaw(x: Json, v: Json, root: Json, stack: set<string>, l: Language)
    requires Contained(One("additionalProperties", x), root)
    ensures Valid(One("additionalProperties", x), v, root, stack, l) <==> (x == Bool(false) && v.Obj? ==> v.members == [])
  {
    var s := One("additionalProperties", x);
    FieldOfOne("additionalProperties", x);
    DescendingIsPlain("additionalProperties", x);
    ValidOfPlain(s, v, root, stack, l);
    NothingLocal("additionalProperties", x, v, l);
    assert ItemSchema(s).None? && Field(s, "additionalProperties") == Some(x) && Field(s, "properties") == None;
    hide Valid, LocalOk, FormOf, Contained, Refs, Field, ItemSchema, One, MembersMeet, MembersValid;
    if v.Obj? {
      PropertiesMean(s, [], v, root, stack, l);
      NoSchemas(v.members, root, stack, l);
    }
  }

  lemma NoSchemas(members: seq<Member>, root: Json, stack: set<string>, l: Language)
    ensures MembersMeet([], members, root, stack, l) && (NoneAdditional([], members) <==> members == [])
  {
    if members != [] { assert members[0] in members; }
  }

  lemma AnyOfLaw(branches: seq<Json>, v: Json, root: Json, stack: set<string>, l: Language)
    requires Contained(One("anyOf", Arr(branches)), root)
    ensures forall b :: b in branches && b.Obj? ==> Contained(b, root)
    ensures Valid(One("anyOf", Arr(branches)), v, root, stack, l)
            <==> exists i :: 0 <= i < |branches| && branches[i].Obj? && Valid(branches[i], v, root, stack, l)
  {
    FieldOfOne("anyOf", Arr(branches));
    var s := One("anyOf", Arr(branches));
    assert FormOf(s) == IsAnyOf(branches);
    ValidOfBranches(s, v, root, stack, l);
    hide Valid, FormOf, Contained, Refs;
    if b :| b in branches && b.Obj? && Valid(b, v, root, stack, l) {
      var i :| 0 <= i < |branches| && branches[i] == b;
    }
  }

  /** One branch and no other accepts the value; a branch listed twice counts twice. */
  lemma OneOfLaw(branches: seq<Json>, v: Json, root: Json, stack: set<string>, l: Language)
    requires Contained(One("oneOf", Arr(branches)), root)
    ensures forall b :: b in branches && b.Obj? ==> Contained(b, root)
    ensures Valid(One("oneOf", Arr(branches)), v, root, stack, l)
            <==> exists i :: 0 <= i < |branches| && branches[i].Obj? && Valid(branches[i], v, root, stack, l)
                             && forall j :: 0 <= j < |branches| && j != i && branches[j].Obj? ==> !Valid(branches[j], v, root, stack, l)
  {
    FieldOfOne("oneOf", Arr(branches));
    var s := One("oneOf", Arr(branches));
    assert "oneOf"[0] != "anyOf"[0];
    assert FormOf(s) == IsOneOf(branches);
    ValidOfBranches(s, v, root, stack, l);
    hide Valid, FormOf, Contained, Refs;
    var matching := Matching(branches, v, root, stack, l);
    assert forall i :: i in matching <==> 0 <= i < |branches| && branches[i].Obj? && Valid(branches[i], v, root, stack, l);
    hide Matching;
    SingletonIff(matching);
  }

  lemma SingletonIff<T>(indices: set<T>)
    ensures |indices| == 1 <==> exists i :: i in indices && forall j :: j in indices ==> j == i
  {
    if |indices| == 1 {
      assert indices != {};
      var i :| i in indices;
      assert |indices - {i}| == 0;
      assert forall j :: j in indices ==> j == i || j in indices - {i};
    }
    if i :| i in indices && forall j :: j in indices ==> j == i { assert indices == {i}; }
  }

  /** A reference that resolves to an object means that object, with the reference on the stack. */
  lemma RefLaw(reference: string, v: Json, root: Json, stack: set<string>, l: Language)
    requires Contained(One("$ref", Str(reference)), root)
    ensures var target := Pointer(root, reference, l.decode);
            && (target.Some? && target.value.Obj? ==> Contained(target.value, root))
            && (Valid(One("$ref", Str(reference)), v, root, stack, l)
                <==> reference != "" && reference[0] == '#' && reference !in stack && target.Some? && target.value.Obj?
                     && Valid(target.value, v, root, stack + {reference}, l))
  {
    var s := One("$ref", Str(reference));
    FieldOfOne("$ref", Str(reference));
    RefsOfPointer(root, reference, l.decode);
    assert FormOf(s) == IsRef(reference);
    ValidOfRef(s, v, root, stack, l);
    hide Valid, FormOf, Refs, Pointer;
  }

  /** Beside a reference, `anyOf` or `oneOf`, in this order, nothing else in the schema counts. */
  lemma ReplacingKeywords(s: Json, v: Json, root: Json, stack: set<string>, l: Language)
    requires Contained(s, root)
    ensures Field(s, "$ref").Some? && Field(s, "$ref").value.Str? ==>
              Contained(One("$ref", Field(s, "$ref").value), root)
              && (Valid(s, v, root, stack, l) <==> Valid(One("$ref", Field(s, "$ref").value), v, root, stack, l))
    ensures !(Field(s, "$ref").Some? && Field(s, "$ref").value.Str?) && Field(s, "anyOf").Some? && Field(s, "anyOf").value.Arr? ==>
              Contained(One("anyOf", Field(s, "anyOf").value), root)
              && (Valid(s, v, root, stack, l) <==> Valid(One("anyOf", Field(s, "anyOf").value), v, root, stack, l))
    ensures !(Field(s, "$ref").Some? && Field(s, "$ref").value.Str?) && !(Field(s, "anyOf").Some? && Field(s, "anyOf").value.Arr?)
            && Field(s, "oneOf").Some? && Field(s, "oneOf").value.Arr? ==>
              Contained(One("oneOf", Field(s, "oneOf").value), root)
              && (Valid(s, v, root, stack, l) <==> Valid(One("oneOf", Field(s, "oneOf").value), v, root, stack, l))
  {
    if FormOf(s).IsRef? {
      KeyIsContained(s, "$ref", root);
      SameForm(s, One("$ref", Field(s, "$ref").value), v, root, stack, l);
    } else if FormOf(s).IsAnyOf? {
      KeyIsContained(s, "anyOf", root);
      SameForm(s, One("anyOf", Field(s, "anyOf").value), v, root, stack, l);
    } else if FormOf(s).IsOneOf? {
      KeyIsContained(s, "oneOf", root);
      SameForm(s, One("oneOf", Field(s, "oneOf").value), v, root, stack, l);
    }
  }

  lemma KeyIsContained(s: Json, key: string, root: Json)
    requires Contained(s, root) && Field(s, key).Some? && key in {"$ref", "anyOf", "oneOf"} && (key == "$ref" ==> Field(s, key).value.Str?)
    ensures Contained(One(key, Field(s, key).value), root)
    ensures Field(One(key, Field(s, key).value), key) == Field(s, key) && forall q :: q != key ==> Field(One(key, Field(s, key).value), q) == None
  {
    var x := Field(s, key).value;
    FieldOfOne(key, x);
    RefsOfField(s, key);
    if key == "$ref" {
      RefIsInRefs(s);
      assert Refs(x) == {};
      forall r | r in Refs(One(key, x)) ensures r in Refs(s) {
        assert One(key, x).members[0].value == x;
      }
    } else {
      RefsOfOne(key, x);
    }
  }

  lemma SameForm(s: Json, t: Json, v: Json, root: Json, stack: set<string>, l: Language)
    requires Contained(s, root) && Contained(t, root) && FormOf(s) == FormOf(t) && !FormOf(s).IsPlain?
    ensures Valid(s, v, root, stack, l) <==> Valid(t, v, root, stack, l)
  {
    if FormOf(s).IsRef? {
      ValidOfRef(s, v, root, stack, l);
      ValidOfRef(t, v, root, stack, l);
    } else {
      ValidOfBranches(s, v, root, stack, l);
      ValidOfBranches(t, v, root, stack, l);
    }
    hide Valid, FormOf, Contained, Refs;
  }

  // ---- A schema means all its keywords at once ----

  predicate IsPair(key: string) {
    key == "properties" || key == "additionalProperties"
  }

  /** The members for `properties` and `additionalProperties`, which speak together. */
  function PairOf(s: Json): Json {
    Obj((if Field(s, "properties").Some? then [Member("properties", Field(s, "properties").value)] else [])
        + if Field(s, "additionalProperties").Some? then [Member("additionalProperties", Field(s, "additionalProperties").value)] else [])
  }

  lemma FieldsOfPair(s: Json)
    ensures forall key :: Field(PairOf(s), key) == if IsPair(key) then Field(s, key) else None
  {
    var members := PairOf(s).members;
    assert "properties"[0] != "additionalProperties"[0];
    forall key ensures Get(members, key) == if IsPair(key) then Field(s, key) else None {
      if |members| > 0 { assert members == [members[0]] + members[1..]; }
      if |members| > 1 { assert members[1..] == [members[1]]; }
    }
  }

  /** A schema without references of its own that says nothing locally and descends nowhere accepts everything. */
  lemma SilentIsValid(s: Json, v: Json, root: Json, stack: set<string>, l: Language)
    requires Contained(s, root) && FormOf(s).IsPlain? && forall k :: Field(s, Text(k)).None?
    requires Field(s, "items").None? && Field(s, "properties").None? && Field(s, "additionalProperties").None?
    ensures Valid(s, v, root, stack, l)
  {
    assert ItemSchema(s).None? && !ForbidsAdditional(s) && forall key :: PropertySchema(s, key).None?;
    ValidOfPlain(s, v, root, stack, l);
    LocalIsAllMet(s, v, l);
    hide Valid, LocalOk, FormOf, Means, Text, Field, ItemSchema, PropertySchema, ForbidsAdditional;
  }

  lemma OneIsContained(members: seq<Member>, i: nat, root: Json)
    requires Contained(Obj(members), root) && DistinctKeys(members) && i < |members| && FormOf(Obj(members)).IsPlain?
    ensures Contained(One(members[i].key, members[i].value), root) && FormOf(One(members[i].key, members[i].value)).IsPlain?
    ensures Field(Obj(members), members[i].key) == Some(members[i].value)
  {
    var key, x := members[i].key, members[i].value;
    GetOfDistinct(members, i);
    RefsOfField(Obj(members), key);
    FieldOfOne(key, x);
    RefsOfOne(key, x);
    hide Refs, Get;
  }

  lemma RefsOfOne(key: string, x: Json)
    ensures !(key == "$ref" && x.Str?) ==> Refs(One(key, x)) <= Refs(x)
  {
    FieldOfOne(key, x);
    var members := [Member(key, x)];
    assert One(key, x).members == members;
    forall r | r in Refs(One(key, x)) && !(key == "$ref" && x.Str?) ensures r in Refs(x) {
      assert forall i :: 0 <= i < |members| ==> members[i].value == x;
    }
  }

  lemma PairIsContained(s: Json, root: Json)
    requires Contained(s, root)
    ensures Contained(PairOf(s), root) && FormOf(PairOf(s)).IsPlain?
  {
    FieldsOfPair(s);
    var pair := PairOf(s);
    if Field(s, "properties").Some? { RefsOfField(s, "properties"); }
    if Field(s, "additionalProperties").Some? { RefsOfField(s, "additionalProperties"); }
    assert "$ref"[0] != "properties"[0] && !IsPair("$ref") && !IsPair("anyOf") && !IsPair("oneOf");
    assert Field(pair, "$ref") == None;
    forall r | r in Refs(pair) ensures r in Refs(s) {
      var i :| 0 <= i < |pair.members| && r in Refs(pair.members[i].value);
    }
  }

  /** One member of a plain schema, apart from the pair: what it decides is what the schema asks at its key. */
  lemma MemberDecides(members: seq<Member>, i: nat, v: Json, root: Json, stack: set<string>, l: Language)
    requires Contained(Obj(members), root) && DistinctKeys(members) && FormOf(Obj(members)).IsPlain?
    requires i < |members| && !IsPair(members[i].key)
    ensures Contained(One(members[i].key, members[i].value), root)
    ensures Valid(One(members[i].key, members[i].value), v, root, stack, l) <==> Asks(Obj(members), members[i].key, v, root, stack, l)
  {
    var s, key, x := Obj(members), members[i].key, members[i].value;
    OneIsContained(members, i, root);
    PartsAreContained(s, root);
    FieldOfOne(key, x);
    DescendingTexts();
    if k :| Text(k) == key {
      TextsDiffer(k);
      KeywordLaw(k, x, v, root, stack, l);
    } else if key == "items" {
      if x.Obj? { assert ItemSchema(s) == Some(x); }
      ItemsLaw(x, v, root, stack, l);
    } else {
      SilentIsValid(One(key, x), v, root, stack, l);
    }
  }

  lemma PairHas(s: Json)
    ensures ItemSchema(PairOf(s)).None? && ForbidsAdditional(PairOf(s)) == ForbidsAdditional(s)
    ensures forall key :: PropertySchema(PairOf(s), key) == PropertySchema(s, key)
    ensures forall k :: Field(PairOf(s), Text(k)).None?
  {
    FieldsOfPair(s);
    DescendingTexts();
    assert !IsPair("items");
    hide Text, PairOf, Get;
    assert forall k :: !IsPair(Text(k));
  }

  /** The pair decides what the schema asks of properties. */
  lemma PairDecides(s: Json, v: Json, root: Json, stack: set<string>, l: Language)
    requires Contained(s, root) && Contained(PairOf(s), root) && FormOf(PairOf(s)).IsPlain?
    ensures Valid(PairOf(s), v, root, stack, l) <==> (v.Obj? ==> MembersValid(s, v.members, root, stack, l))
  {
    var pair := PairOf(s);
    PairHas(s);
    PartsAreContained(s, root);
    PartsAreContained(pair, root);
    ValidOfPlain(pair, v, root, stack, l);
    LocalIsAllMet(pair, v, l);
    hide Valid, LocalOk, FormOf, Means, Text, Field, ItemSchema, PropertySchema, ForbidsAdditional, PairOf, Contained, Refs;
  }

  /**
   * A plain schema accepts a value exactly if each of its keywords alone does, `properties` and
   * `additionalProperties` being taken together.
   */
  lemma KeywordsCompose(members: seq<Member>, v: Json, root: Json, stack: set<string>, l: Language)
    requires Contained(Obj(members), root) && DistinctKeys(members) && FormOf(Obj(members)).IsPlain?
    ensures forall i :: 0 <= i < |members| ==> Contained(One(members[i].key, members[i].value), root)
    ensures Contained(PairOf(Obj(members)), root)
    ensures Valid(Obj(members), v, root, stack, l)
            <==> (forall i :: 0 <= i < |members| && !IsPair(members[i].key) ==> Valid(One(members[i].key, members[i].value), v, root, stack, l))
                 && Valid(PairOf(Obj(members)), v, root, stack, l)
  {
    var s := Obj(members);
    forall i | 0 <= i < |members| ensures Contained(One(members[i].key, members[i].value), root) { OneIsContained(members, i, root); }
    SchemaSplits(s, v, root, stack, l);
    hide Valid, FormOf, Met, Text, Contained, Refs, PairOf, One, Field, IsPair, DistinctKeys, Asks, ItemsAsk;
    forall i | 0 <= i < |members| && !IsPair(members[i].key)
      ensures Valid(One(members[i].key, members[i].value), v, root, stack, l) <==> Asks(s, members[i].key, v, root, stack, l)
    {
      MemberDecides(members, i, v, root, stack, l);
    }
    AllAsked(members, v, root, stack, l);
  }

  /** The schema's items accept the value's. */
  ghost predicate ItemsAsk(s: Json, v: Json, root: Json, stack: set<string>, l: Language)
    requires Contained(s, root)
  {
    PartsAreContained(s, root);
    v.Arr? && ItemSchema(s).Some? ==> ItemsValid(ItemSchema(s).value, v.items, root, stack, l)
  }

  /** What the schema asks at one of its keys, the pair apart. */
  ghost predicate Asks(s: Json, key: string, v: Json, root: Json, stack: set<string>, l: Language)
    requires Contained(s, root)
  {
    (forall k :: Text(k) == key ==> Met(k, s, v, l)) && (key == "items" ==> ItemsAsk(s, v, root, stack, l))
  }

  lemma AllAsked(members: seq<Member>, v: Json, root: Json, stack: set<string>, l: Language)
    requires Contained(Obj(members), root)
    ensures (forall i :: 0 <= i < |members| && !IsPair(members[i].key) ==> Asks(Obj(members), members[i].key, v, root, stack, l))
            <==> (forall k :: Met(k, Obj(members), v, l)) && ItemsAsk(Obj(members), v, root, stack, l)
  {
    var s := Obj(members);
    ItemsIsMember(s);
    if forall i :: 0 <= i < |members| && !IsPair(members[i].key) ==> Asks(s, members[i].key, v, root, stack, l) {
      forall k ensures Met(k, s, v, l) {
        KeywordIsNoPair(k);
        if i :| 0 <= i < |members| && members[i].key == Text(k) {
          assert Asks(s, members[i].key, v, root, stack, l);
        } else {
          AbsentIsMet(members, k, v, l);
        }
      }
    }
  }

  lemma KeywordIsNoPair(k: Keyword)
    ensures !IsPair(Text(k))
  {
    DescendingTexts();
  }

  lemma SchemaSplits(s: Json, v: Json, root: Json, stack: set<string>, l: Language)
    requires Contained(s, root) && FormOf(s).IsPlain?
    ensures Contained(PairOf(s), root) && (ItemSchema(s).Some? ==> Contained(ItemSchema(s).value, root))
    ensures Valid(s, v, root, stack, l) <==>
              (forall k :: Met(k, s, v, l)) && Valid(PairOf(s), v, root, stack, l) && ItemsAsk(s, v, root, stack, l)
  {
    PairIsContained(s, root);
    PartsAreContained(s, root);
    PairDecides(s, v, root, stack, l);
    ValidOfPlain(s, v, root, stack, l);
    LocalIsAllMet(s, v, l);
    hide Valid, LocalOk, FormOf, Met, Text, Contained, Refs, PairOf, MembersValid, ItemsValid, ItemSchema;
  }

  lemma AbsentIsMet(members: seq<Member>, k: Keyword, v: Json, l: Language)
    requires forall i :: 0 <= i < |members| ==> members[i].key != Text(k)
    ensures Met(k, Obj(members), v, l)
  {
    hide Text, Means;
  }

  lemma ItemsIsMember(s: Json)
    requires s.Obj?
    ensures !IsPair("items") && (ItemSchema(s).Some? ==> exists i :: 0 <= i < |s.members| && s.members[i].key == "items")
  {
  }
}

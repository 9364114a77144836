/**
 * The JSON schema subset of tools/phase2/json-schema.ts: `$ref` pointers, and validation with a stack
 * of the references being resolved.
 */
module JsonSchema {
  import opened Options
  import opened Paths
  import opened JsonValues

  // ---- Pointers ----

  /** `replaceAll("~" + digit, to)`. */
  function ReplaceTilde(s: string, digit: char, to: char): string {
    if |s| < 2 then s
    else if s[0] == '~' && s[1] == digit then [to] + ReplaceTilde(s[2..], digit, to)
    else [s[0]] + ReplaceTilde(s[1..], digit, to)
  }

  /** The decoding of one reference token: `~1` first, then `~0`. */
  function Unescape(token: string): string {
    ReplaceTilde(ReplaceTilde(token, '1', '/'), '0', '~')
  }

  /** The encoding of section 4 of RFC 6901. */
  function Escape(key: string): string {
    if key == "" then ""
    else (if key[0] == '~' then "~0" else if key[0] == '/' then "~1" else [key[0]]) + Escape(key[1..])
  }

  /** What is left after the first pass of decoding: only tildes are still encoded. */
  function TildesOnly(key: string): string {
    if key == "" then "" else (if key[0] == '~' then "~0" else [key[0]]) + TildesOnly(key[1..])
  }

  lemma {:induction false} FirstPass(key: string)
    ensures ReplaceTilde(Escape(key), '1', '/') == TildesOnly(key)
  {
    if key != "" {
      var rest := Escape(key[1..]);
      FirstPass(key[1..]);
      if key[0] == '~' {
        assert Escape(key) == ['~', '0'] + rest && Escape(key)[1..] == ['0'] + rest;
        assert (['0'] + rest)[1..] == rest;
        assert ReplaceTilde(['0'] + rest, '1', '/') == ['0'] + ReplaceTilde(rest, '1', '/');
      } else if key[0] == '/' {
        assert Escape(key)[2..] == rest;
      } else {
        assert Escape(key)[1..] == rest;
      }
    }
  }

  lemma {:induction false} SecondPass(key: string)
    ensures ReplaceTilde(TildesOnly(key), '0', '~') == key
  {
    if key != "" {
      var rest := TildesOnly(key[1..]);
      SecondPass(key[1..]);
      if key[0] == '~' {
        assert TildesOnly(key)[2..] == rest;
      } else {
        assert TildesOnly(key)[1..] == rest;
      }
      assert key == [key[0]] + key[1..];
    }
  }

  /** Decoding undoes the escaping, for every key. */
  lemma UnescapeEscape(key: string)
    ensures Unescape(Escape(key)) == key
  {
    FirstPass(key);
    SecondPass(key);
  }

  /** In the other order it would not: the key `~1` would come back as a slash. */
  lemma OtherOrderFails()
    ensures ReplaceTilde(ReplaceTilde(Escape("~1"), '0', '~'), '1', '/') != "~1"
  {
    assert Escape("~1") == "~01" by {
      assert "~1"[1..] == "1" && "1"[1..] == "";
      assert Escape("1") == "1" + Escape("");
    }
    assert "~01"[2..] == "1";
    assert ReplaceTilde("~01", '0', '~') == "~" + "1";
    assert "~1"[2..] == "";
    assert ReplaceTilde("~1", '1', '/') == "/" + "";
  }

  lemma {:induction false} EscapeHasNoSlash(key: string)
    ensures '/' !in Escape(key)
  {
    if key != "" { EscapeHasNoSlash(key[1..]); }
  }

  /** The reduction over reference tokens; `decode` stands for `decodeURIComponent`. */
  function Follow(node: Option<Json>, tokens: seq<string>, decode: string -> string): Option<Json>
    decreases |tokens|
  {
    if tokens == [] then node
    else
      var next := if node.Some? && node.value.Obj? then Get(node.value.members, Unescape(decode(tokens[0]))) else None;
      Follow(next, tokens[1..], decode)
  }

  function Pointer(root: Json, reference: string, decode: string -> string): Option<Json> {
    if reference == "#" then Some(root)
    else if |reference| < 2 || reference[..2] != "#/" then None
    else Follow(Some(root), Segments(reference[2..]), decode)
  }

  /** The node reached by a path of keys. */
  function Walk(node: Option<Json>, keys: seq<string>): Option<Json>
    decreases |keys|
  {
    if keys == [] then node
    else Walk(if node.Some? && node.value.Obj? then Get(node.value.members, keys[0]) else None, keys[1..])
  }

  /** The reference with these keys; `encode` stands for `encodeURIComponent`. */
  function Reference(keys: seq<string>, encode: string -> string): string {
    if keys == [] then "#" else Reference(keys[..|keys| - 1], encode) + "/" + encode(Escape(keys[|keys| - 1]))
  }

  /** Encoding puts no slash where there was none. */
  ghost predicate KeepsTokens(encode: string -> string) {
    forall t :: '/' !in t ==> '/' !in encode(t)
  }

  lemma {:induction false} ReferenceStart(keys: seq<string>, encode: string -> string)
    requires keys != [] && KeepsTokens(encode)
    ensures |Reference(keys, encode)| >= 2 && Reference(keys, encode)[..2] == "#/"
    ensures Segments(Reference(keys, encode)[2..]) == seq(|keys|, i requires 0 <= i < |keys| => encode(Escape(keys[i])))
  {
    var front, last := keys[..|keys| - 1], encode(Escape(keys[|keys| - 1]));
    EscapeHasNoSlash(keys[|keys| - 1]);
    OneSegment(last);
    if front == [] {
      assert Reference(keys, encode) == "#" + "/" + last;
      assert Reference(keys, encode)[2..] == last;
    } else {
      ReferenceStart(front, encode);
      var start := Reference(front, encode);
      assert Reference(keys, encode)[..2] == start[..2];
      assert Reference(keys, encode)[2..] == start[2..] + "/" + last;
      SegmentsOfJoin(start[2..], last);
    }
  }

  lemma {:induction false} FollowIsWalk(node: Option<Json>, tokens: seq<string>, keys: seq<string>, decode: string -> string)
    requires |tokens| == |keys| && forall i :: 0 <= i < |keys| ==> Unescape(decode(tokens[i])) == keys[i]
    ensures Follow(node, tokens, decode) == Walk(node, keys)
    decreases |keys|
  {
    if keys != [] {
      var next := if node.Some? && node.value.Obj? then Get(node.value.members, keys[0]) else None;
      FollowIsWalk(next, tokens[1..], keys[1..], decode);
    }
  }

  /** A reference built by the escaping rule finds exactly the node its keys lead to, whatever the keys. */
  lemma PointerFindsNode(root: Json, keys: seq<string>, encode: string -> string, decode: string -> string)
    requires KeepsTokens(encode) && forall t :: decode(encode(t)) == t
    ensures Pointer(root, Reference(keys, encode), decode) == Walk(Some(root), keys)
  {
    if keys != [] {
      ReferenceStart(keys, encode);
      var tokens := seq(|keys|, i requires 0 <= i < |keys| => encode(Escape(keys[i])));
      forall i | 0 <= i < |keys| ensures Unescape(decode(tokens[i])) == keys[i] {
        UnescapeEscape(keys[i]);
      }
      FollowIsWalk(Some(root), tokens, keys, decode);
    }
  }

  // ---- References of a schema ----

  /** Every `$ref` string anywhere in a document. */
  function Refs(j: Json): set<string> {
    match j
    case Arr(items) => set i, r | 0 <= i < |items| && r in Refs(items[i]) :: r
    case Obj(members) =>
      (if Get(members, "$ref").Some? && Get(members, "$ref").value.Str? then {Get(members, "$ref").value.s} else {})
      + set i, r | 0 <= i < |members| && r in Refs(members[i].value) :: r
    case _ => {}
  }

  lemma RefsOfField(j: Json, key: string)
    requires j.Obj? && Get(j.members, key).Some?
    ensures Refs(Get(j.members, key).value) <= Refs(j)
  {
    var child := Get(j.members, key).value;
    var i :| 0 <= i < |j.members| && j.members[i] == Member(key, child);
    assert forall r :: r in Refs(j.members[i].value) ==> r in Refs(j);
  }

  lemma RefsOfItem(j: Json, i: nat)
    requires j.Arr? && i < |j.items|
    ensures Refs(j.items[i]) <= Refs(j)
  {
  }

  lemma {:induction false} RefsOfFollow(root: Json, node: Option<Json>, tokens: seq<string>, decode: string -> string)
    requires node.Some? ==> Refs(node.value) <= Refs(root)
    ensures Follow(node, tokens, decode).Some? ==> Refs(Follow(node, tokens, decode).value) <= Refs(root)
    decreases |tokens|
  {
    if tokens != [] {
      var next := if node.Some? && node.value.Obj? then Get(node.value.members, Unescape(decode(tokens[0]))) else None;
      if next.Some? { RefsOfField(node.value, Unescape(decode(tokens[0]))); }
      RefsOfFollow(root, next, tokens[1..], decode);
    }
  }

  lemma RefsOfPointer(root: Json, reference: string, decode: string -> string)
    ensures Pointer(root, reference, decode).Some? ==> Refs(Pointer(root, reference, decode).value) <= Refs(root)
  {
    if |reference| >= 2 && reference[..2] == "#/" { RefsOfFollow(root, Some(root), Segments(reference[2..]), decode); }
  }

  // ---- What a schema says ----

  /** Regular expressions, dates and percent decoding are inputs. */
  datatype Language = Language(matches: (string, string) -> bool, isDateTime: string -> bool, decode: string -> string)

  predicate TypeMatches(t: string, v: Json) {
    match v
    case Null => t == "null"
    case Arr(_) => t == "array"
    case Obj(_) => t == "object"
    case Num(n) => t == "number" || (t == "integer" && n == n.Floor as real)
    case Str(_) => t == "string"
    case Bool(_) => t == "boolean"
  }

  function TypesOf(s: Json): seq<string> {
    match Field(s, "type")
    case Some(Str(t)) => [t]
    case Some(Arr(items)) => Strings(items)
    case _ => []
  }

  function Strings(items: seq<Json>): seq<string> {
    if items == [] then []
    else (if items[0].Str? then [items[0].s] else []) + Strings(items[1..])
  }

  predicate TypeOk(s: Json, v: Json) {
    TypesOf(s) == [] || exists i :: 0 <= i < |TypesOf(s)| && TypeMatches(TypesOf(s)[i], v)
  }

  function NumberField(s: Json, key: string): Option<real> {
    match Field(s, key) case Some(Num(n)) => Some(n) case _ => None
  }

  predicate ConstOk(s: Json, v: Json) {
    Field(s, "const").Some? ==> Field(s, "const").value == v
  }

  predicate EnumOk(s: Json, v: Json) {
    match Field(s, "enum") case Some(Arr(items)) => v in items case _ => true
  }

  predicate MinLengthOk(s: Json, text: string) {
    NumberField(s, "minLength").Some? ==> |text| as real >= NumberField(s, "minLength").value
  }

  predicate PatternOk(s: Json, text: string, l: Language) {
    match Field(s, "pattern") case Some(Str(pattern)) => l.matches(pattern, text) case _ => true
  }

  predicate FormatOk(s: Json, text: string, l: Language) {
    Field(s, "format") == Some(Str("date-time")) ==> l.isDateTime(text)
  }

  predicate MinimumOk(s: Json, n: real) {
    NumberField(s, "minimum").Some? ==> n >= NumberField(s, "minimum").value
  }

  predicate ExclusiveMinimumOk(s: Json, n: real) {
    NumberField(s, "exclusiveMinimum").Some? ==> n > NumberField(s, "exclusiveMinimum").value
  }

  predicate MaximumOk(s: Json, n: real) {
    NumberField(s, "maximum").Some? ==> n <= NumberField(s, "maximum").value
  }

  predicate MinItemsOk(s: Json, count: nat) {
    NumberField(s, "minItems").Some? ==> count as real >= NumberField(s, "minItems").value
  }

  predicate MaxItemsOk(s: Json, count: nat) {
    NumberField(s, "maxItems").Some? ==> count as real <= NumberField(s, "maxItems").value
  }

  predicate UniqueOk(s: Json, items: seq<Json>) {
    Field(s, "uniqueItems") == Some(Bool(true)) ==> forall i, j :: 0 <= i < j < |items| ==> items[i] != items[j]
  }

  /** Everything a schema says about a value itself, apart from its items and properties. */
  predicate LocalOk(s: Json, v: Json, l: Language) {
    && TypeOk(s, v) && ConstOk(s, v) && EnumOk(s, v)
    && (v.Str? ==> MinLengthOk(s, v.s) && PatternOk(s, v.s, l) && FormatOk(s, v.s, l))
    && (v.Num? ==> MinimumOk(s, v.n) && ExclusiveMinimumOk(s, v.n) && MaximumOk(s, v.n))
    && (v.Arr? ==> MinItemsOk(s, |v.items|) && MaxItemsOk(s, |v.items|) && UniqueOk(s, v.items))
    && (v.Obj? ==> forall i :: 0 <= i < |RequiredKeys(s)| ==> Get(v.members, RequiredKeys(s)[i]).Some?)
  }

  function RequiredKeys(s: Json): seq<string> {
    match Field(s, "required") case Some(Arr(items)) => Strings(items) case _ => []
  }

  /** `items`, when it is a schema. */
  function ItemSchema(s: Json): Option<Json> {
    match Field(s, "items") case Some(Obj(members)) => Some(Obj(members)) case _ => None
  }

  /** The schema of property `key`, when there is one. */
  function PropertySchema(s: Json, key: string): Option<Json> {
    match Field(s, "properties")
    case Some(Obj(members)) => (match Get(members, key) case Some(Obj(m)) => Some(Obj(m)) case _ => None)
    case _ => None
  }

  predicate ForbidsAdditional(s: Json) {
    Field(s, "additionalProperties") == Some(Bool(false))
  }

  datatype Form = IsRef(reference: string) | IsAnyOf(branches: seq<Json>) | IsOneOf(branches: seq<Json>) | IsPlain

  function FormOf(s: Json): Form {
    match Field(s, "$ref")
    case Some(Str(r)) => IsRef(r)
    case _ =>
      match Field(s, "anyOf")
      case Some(Arr(branches)) => IsAnyOf(branches)
      case _ => match Field(s, "oneOf") case Some(Arr(branches)) => IsOneOf(branches) case _ => IsPlain
  }

  predicate Contained(s: Json, root: Json) {
    s.Obj? && Refs(s) <= Refs(root)
  }

  /** What every part of a schema inherits: it holds no other references. */
  lemma PartsAreContained(s: Json, root: Json)
    requires Contained(s, root)
    ensures FormOf(s).IsRef? ==> FormOf(s).reference in Refs(root)
    ensures forall b :: (FormOf(s).IsAnyOf? || FormOf(s).IsOneOf?) && b in FormOf(s).branches && b.Obj? ==> Contained(b, root)
    ensures ItemSchema(s).Some? ==> Contained(ItemSchema(s).value, root)
    ensures forall key :: PropertySchema(s, key).Some? ==> Contained(PropertySchema(s, key).value, root)
  {
    hide Refs, FormOf, ItemSchema, PropertySchema;
    RefIsInRefs(s);
    forall b | (FormOf(s).IsAnyOf? || FormOf(s).IsOneOf?) && b in FormOf(s).branches && b.Obj? ensures Contained(b, root) { BranchIsContained(s, b); }
    ItemSchemaIsContained(s);
    forall key | PropertySchema(s, key).Some? ensures Contained(PropertySchema(s, key).value, root) { PropertySchemaIsContained(s, key); }
  }

  lemma BranchIsContained(s: Json, b: Json)
    requires s.Obj? && (FormOf(s).IsAnyOf? || FormOf(s).IsOneOf?) && b in FormOf(s).branches
    ensures Refs(b) <= Refs(s)
  {
    hide Refs;
    var name := if FormOf(s).IsAnyOf? then "anyOf" else "oneOf";
    RefsOfField(s, name);
    var i :| 0 <= i < |FormOf(s).branches| && FormOf(s).branches[i] == b;
    RefsOfItem(Get(s.members, name).value, i);
  }

  lemma ItemSchemaIsContained(s: Json)
    requires s.Obj?
    ensures ItemSchema(s).Some? ==> ItemSchema(s).value.Obj? && Refs(ItemSchema(s).value) <= Refs(s)
  {
    hide Refs;
    if ItemSchema(s).Some? { RefsOfField(s, "items"); }
  }

  lemma PropertySchemaIsContained(s: Json, key: string)
    requires s.Obj?
    ensures PropertySchema(s, key).Some? ==> PropertySchema(s, key).value.Obj? && Refs(PropertySchema(s, key).value) <= Refs(s)
  {
    hide Refs;
    if PropertySchema(s, key).Some? {
      RefsOfField(s, "properties");
      RefsOfField(Get(s.members, "properties").value, key);
    }
  }

  lemma RefIsInRefs(s: Json)
    ensures s.Obj? && FormOf(s).IsRef? ==> FormOf(s).reference in Refs(s)
  {
  }

  function Size(j: Json): nat {
    match j
    case Arr(items) => 1 + SizeOfItems(items)
    case Obj(members) => 1 + SizeOfMembers(members)
    case _ => 1
  }

  function SizeOfItems(items: seq<Json>): nat {
    if items == [] then 0 else Size(items[0]) + SizeOfItems(items[1..])
  }

  function SizeOfMembers(members: seq<Member>): nat {
    if members == [] then 0 else Size(members[0].value) + SizeOfMembers(members[1..])
  }

  lemma {:induction false} ItemIsSmaller(items: seq<Json>, i: nat)
    requires i < |items|
    ensures Size(items[i]) <= SizeOfItems(items)
  {
    if i > 0 { ItemIsSmaller(items[1..], i - 1); }
  }

  lemma {:induction false} FieldIsSmaller(members: seq<Member>, key: string)
    requires Get(members, key).Some?
    ensures Size(Get(members, key).value) <= SizeOfMembers(members)
  {
    if members[0].key != key { FieldIsSmaller(members[1..], key); }
  }

  lemma PartsAreSmaller(s: Json)
    requires s.Obj?
    ensures forall b :: (FormOf(s).IsAnyOf? || FormOf(s).IsOneOf?) && b in FormOf(s).branches ==> Size(b) < Size(s)
    ensures ItemSchema(s).Some? ==> Size(ItemSchema(s).value) < Size(s)
    ensures forall key :: PropertySchema(s, key).Some? ==> Size(PropertySchema(s, key).value) < Size(s)
  {
    if FormOf(s).IsAnyOf? || FormOf(s).IsOneOf? {
      var name := if FormOf(s).IsAnyOf? then "anyOf" else "oneOf";
      FieldIsSmaller(s.members, name);
      forall b | b in FormOf(s).branches ensures Size(b) < Size(s) {
        var i :| 0 <= i < |FormOf(s).branches| && FormOf(s).branches[i] == b;
        ItemIsSmaller(FormOf(s).branches, i);
      }
    }
    if ItemSchema(s).Some? { FieldIsSmaller(s.members, "items"); }
    forall key | PropertySchema(s, key).Some? ensures Size(PropertySchema(s, key).value) < Size(s) {
      FieldIsSmaller(s.members, "properties");
      FieldIsSmaller(Get(s.members, "properties").value.members, key);
    }
  }

  /** The object a reference leads to, unless it is external, unresolved or already being resolved. */
  function Target(root: Json, reference: string, l: Language, stack: set<string>): Option<Json> {
    if reference == "" || reference[0] != '#' || reference in stack then None
    else
      match Pointer(root, reference, l.decode)
      case Some(Obj(members)) => Some(Obj(members))
      case _ => None
  }

  lemma TargetIsContained(root: Json, reference: string, l: Language, stack: set<string>)
    ensures Target(root, reference, l, stack).Some? ==> Contained(Target(root, reference, l, stack).value, root)
  {
    RefsOfPointer(root, reference, l.decode);
  }

  /**
   * The meaning of the supported subset. References are followed under a stack of those being resolved,
   * which items and properties inherit.
   */
  ghost predicate Valid(s: Json, v: Json, root: Json, stack: set<string>, l: Language)
    requires Contained(s, root)
    decreases |Refs(root) - stack|, Size(s)
  {
    PartsAreContained(s, root);
    PartsAreSmaller(s);
    match FormOf(s)
    case IsRef(r) =>
      TargetIsContained(root, r, l, stack);
      StackShrinks(root, r, stack);
      var target := Target(root, r, l, stack);
      r !in stack && target.Some? && Valid(target.value, v, root, stack + {r}, l)
    case IsAnyOf(branches) => exists b :: b in branches && b.Obj? && Valid(b, v, root, stack, l)
    case IsOneOf(branches) => |(set i | 0 <= i < |branches| && branches[i].Obj? && Valid(branches[i], v, root, stack, l))| == 1
    case IsPlain =>
      && LocalOk(s, v, l)
      && (v.Arr? && ItemSchema(s).Some? ==> forall i :: 0 <= i < |v.items| ==> Valid(ItemSchema(s).value, v.items[i], root, stack, l))
      && (v.Obj? ==> forall i :: 0 <= i < |v.members| ==>
            var property := PropertySchema(s, v.members[i].key);
            if property.Some? then Valid(property.value, v.members[i].value, root, stack, l) else !ForbidsAdditional(s))
  }

  lemma StackShrinks(root: Json, r: string, stack: set<string>)
    requires r in Refs(root)
    ensures r !in stack ==> |Refs(root) - (stack + {r})| < |Refs(root) - stack|
  {
    if r !in stack {
      assert Refs(root) - (stack + {r}) == Refs(root) - stack - {r};
    }
  }
}

/** `validateNode` of tools/phase2/json-schema.ts, and what its reference stack means for schemas. */
module JsonValidator {
  import opened Options
  import opened Texts
  import opened JsonValues
  import opened JsonSchema

  /** The array every level of validation pushes into. */
  class Diagnostics {
    var entries: seq<string>

    constructor ()
      ensures entries == []
    {
      entries := [];
    }

    method Push(entry: string)
      modifies this
      ensures entries == old(entries) + [entry]
    {
      entries := entries + [entry];
    }
  }

  /** Pushes the entry unless the check holds. */
  method Check(ok: bool, entry: string, d: Diagnostics)
    modifies d
    ensures old(d.entries) <= d.entries && (d.entries == old(d.entries) <==> ok)
  {
    if !ok { d.Push(entry); }
  }

  method CheckConstAndEnum(s: Json, v: Json, path: string, d: Diagnostics)
    modifies d
    ensures old(d.entries) <= d.entries && (d.entries == old(d.entries) <==> ConstOk(s, v) && EnumOk(s, v))
  {
    Check(ConstOk(s, v), path + ": value does not match const", d);
    Check(EnumOk(s, v), path + ": value is outside enum", d);
  }

  method CheckString(s: Json, text: string, path: string, l: Language, d: Diagnostics)
    modifies d
    ensures old(d.entries) <= d.entries
    ensures d.entries == old(d.entries) <==> MinLengthOk(s, text) && PatternOk(s, text, l) && FormatOk(s, text, l)
  {
    Check(MinLengthOk(s, text), path + ": string is too short", d);
    Check(PatternOk(s, text, l), path + ": string does not match pattern", d);
    Check(FormatOk(s, text, l), path + ": string is not an RFC 3339 UTC date-time", d);
  }

  method CheckNumber(s: Json, n: real, path: string, d: Diagnostics)
    modifies d
    ensures old(d.entries) <= d.entries
    ensures d.entries == old(d.entries) <==> MinimumOk(s, n) && ExclusiveMinimumOk(s, n) && MaximumOk(s, n)
  {
    Check(MinimumOk(s, n), path + ": number is below minimum", d);
    Check(ExclusiveMinimumOk(s, n), path + ": number is below exclusive minimum", d);
    Check(MaximumOk(s, n), path + ": number is above maximum", d);
  }

  method CheckArray(s: Json, items: seq<Json>, path: string, d: Diagnostics)
    modifies d
    ensures old(d.entries) <= d.entries
    ensures d.entries == old(d.entries) <==> MinItemsOk(s, |items|) && MaxItemsOk(s, |items|) && UniqueOk(s, items)
  {
    Check(MinItemsOk(s, |items|), path + ": array has too few items", d);
    Check(MaxItemsOk(s, |items|), path + ": array has too many items", d);
    Check(UniqueOk(s, items), path + ": array items are not unique", d);
  }

  method CheckRequired(s: Json, members: seq<Member>, path: string, d: Diagnostics)
    modifies d
    ensures old(d.entries) <= d.entries
    ensures d.entries == old(d.entries) <==> forall i :: 0 <= i < |RequiredKeys(s)| ==> Get(members, RequiredKeys(s)[i]).Some?
  {
    var required := RequiredKeys(s);
    for k := 0 to |required|
      invariant old(d.entries) <= d.entries
      invariant d.entries == old(d.entries) <==> forall i :: 0 <= i < k ==> Get(members, required[i]).Some?
    {
      Check(Get(members, required[k]).Some?, path + "/" + required[k] + ": required property is missing", d);
    }
  }

  /** Everything a plain schema checks before it descends. */
  method CheckLocal(s: Json, v: Json, path: string, l: Language, d: Diagnostics) returns (typed: bool)
    modifies d
    ensures old(d.entries) <= d.entries && (d.entries == old(d.entries) <==> LocalOk(s, v, l))
    ensures typed <==> TypeOk(s, v)
  {
    typed := TypeOk(s, v);
    if !typed {
      d.Push(path + ": value has the wrong type");
      return;
    }
    CheckConstAndEnum(s, v, path, d);
    if v.Str? { CheckString(s, v.s, path, l, d); }
    if v.Num? { CheckNumber(s, v.n, path, d); }
    if v.Arr? { CheckArray(s, v.items, path, d); }
    if v.Obj? { CheckRequired(s, v.members, path, d); }
  }

  // ---- One step of the meaning ----

  lemma ValidOfRef(s: Json, v: Json, root: Json, stack: set<string>, l: Language)
    requires Contained(s, root) && FormOf(s).IsRef?
    ensures FormOf(s).reference in Refs(root)
    ensures var r := FormOf(s).reference;
            var target := Target(root, r, l, stack);
            && (target.Some? ==> Contained(target.value, root))
            && (Valid(s, v, root, stack, l) <==> r !in stack && target.Some? && Valid(target.value, v, root, stack + {r}, l))
  {
    PartsAreContained(s, root);
    TargetIsContained(root, FormOf(s).reference, l, stack);
  }

  ghost predicate SomeBranch(branches: seq<Json>, v: Json, root: Json, stack: set<string>, l: Language)
    requires forall b :: b in branches && b.Obj? ==> Contained(b, root)
  {
    exists b :: b in branches && b.Obj? && Valid(b, v, root, stack, l)
  }

  ghost function Matching(branches: seq<Json>, v: Json, root: Json, stack: set<string>, l: Language): set<int>
    requires forall b :: b in branches && b.Obj? ==> Contained(b, root)
  {
    set i | 0 <= i < |branches| && branches[i].Obj? && Valid(branches[i], v, root, stack, l)
  }

  lemma ValidOfBranches(s: Json, v: Json, root: Json, stack: set<string>, l: Language)
    requires Contained(s, root) && (FormOf(s).IsAnyOf? || FormOf(s).IsOneOf?)
    ensures forall b :: b in FormOf(s).branches && b.Obj? ==> Contained(b, root) && Size(b) < Size(s)
    ensures FormOf(s).IsAnyOf? ==> (Valid(s, v, root, stack, l) <==> SomeBranch(FormOf(s).branches, v, root, stack, l))
    ensures FormOf(s).IsOneOf? ==> (Valid(s, v, root, stack, l) <==> |Matching(FormOf(s).branches, v, root, stack, l)| == 1)
  {
    PartsAreContained(s, root);
    PartsAreSmaller(s);
    hide FormOf, Refs, Size;
  }

  ghost predicate PartsValid(s: Json, v: Json, root: Json, stack: set<string>, l: Language)
    requires Contained(s, root)
  {
    PartsAreContained(s, root);
    && (v.Arr? && ItemSchema(s).Some? ==> ItemsValid(ItemSchema(s).value, v.items, root, stack, l))
    && (v.Obj? ==> MembersValid(s, v.members, root, stack, l))
  }

  ghost predicate ItemsValid(items: Json, values: seq<Json>, root: Json, stack: set<string>, l: Language)
    requires Contained(items, root)
  {
    forall i :: 0 <= i < |values| ==> Valid(items, values[i], root, stack, l)
  }

  ghost predicate MembersValid(s: Json, members: seq<Member>, root: Json, stack: set<string>, l: Language)
    requires Contained(s, root)
  {
    forall i :: 0 <= i < |members| ==> MemberValid(s, members[i], root, stack, l)
  }

  ghost predicate MemberValid(s: Json, member: Member, root: Json, stack: set<string>, l: Language)
    requires Contained(s, root)
  {
    PartsAreContained(s, root);
    var property := PropertySchema(s, member.key);
    if property.Some? then Valid(property.value, member.value, root, stack, l) else !ForbidsAdditional(s)
  }

  lemma ValidOfPlain(s: Json, v: Json, root: Json, stack: set<string>, l: Language)
    requires Contained(s, root) && FormOf(s).IsPlain?
    ensures Valid(s, v, root, stack, l) <==> LocalOk(s, v, l) && PartsValid(s, v, root, stack, l)
  {
    PartsAreContained(s, root);
    hide FormOf, Refs, Size, LocalOk, PropertySchema, ItemSchema, ForbidsAdditional;
  }

  /**
   * `validateNode`: ends on every schema, cyclic references included, and pushes no diagnostic exactly
   * when the value is valid.
   */
  method ValidateNode(s: Json, v: Json, root: Json, path: string, d: Diagnostics, stack: set<string>, l: Language)
    requires Contained(s, root)
    modifies d
    ensures old(d.entries) <= d.entries
    ensures d.entries == old(d.entries) <==> Valid(s, v, root, stack, l)
    decreases |Refs(root) - stack|, Size(s), 2
  {
    hide Valid, Refs, Size, LocalOk, PartsValid, SomeBranch, Matching, TypeOk, FormOf;
    var form := FormOf(s);
    match form {
      case IsRef(r) =>
        ValidOfRef(s, v, root, stack, l);
        if r == "" || r[0] != '#' { d.Push(path + ": external schema reference is unsupported"); return; }
        if r in stack { d.Push(path + ": cyclic schema reference is unsupported"); return; }
        var target := Target(root, r, l, stack);
        if target.None? { d.Push(path + ": schema reference does not resolve"); return; }
        StackShrinks(root, r, stack);
        ValidateNode(target.value, v, root, path, d, stack + {r}, l);
      case IsAnyOf(branches) =>
        ValidOfBranches(s, v, root, stack, l);
        var n := CountMatches(s, branches, v, root, path, stack, l, true);
        if n == 0 { d.Push(path + ": value does not match any schema branch"); }
      case IsOneOf(branches) =>
        ValidOfBranches(s, v, root, stack, l);
        var n := CountMatches(s, branches, v, root, path, stack, l, false);
        if n != 1 { d.Push(path + ": value must match exactly one schema branch"); }
      case IsPlain =>
        ValidOfPlain(s, v, root, stack, l);
        WrongTypeIsInvalid(s, v, l);
        ghost var before := d.entries;
        var typed := CheckLocal(s, v, path, l, d);
        ghost var middle := d.entries;
        if typed { ValidateParts(s, v, root, path, d, stack, l); }
        assert before <= middle <= d.entries;
    }
  }

  lemma WrongTypeIsInvalid(s: Json, v: Json, l: Language)
    ensures LocalOk(s, v, l) ==> TypeOk(s, v)
  {
  }

  /** Counts the matching branches, each judged by a diagnostics array of its own; `some` stops at the first. */
  method CountMatches(ghost s: Json, branches: seq<Json>, v: Json, root: Json, path: string, stack: set<string>, l: Language, stop: bool) returns (n: nat)
    requires forall b :: b in branches && b.Obj? ==> Contained(b, root) && Size(b) < Size(s)
    ensures !stop ==> n == |Matching(branches, v, root, stack, l)|
    ensures n > 0 <==> SomeBranch(branches, v, root, stack, l)
    decreases |Refs(root) - stack|, Size(s), 0
  {
    hide Valid, Refs, Size, Matching, SomeBranch;
    n := 0;
    assert forall i :: 0 <= i < |branches| ==> branches[i] in branches;
    NoMatch(branches[..0], v, root, stack, l);
    for k := 0 to |branches|
      invariant forall b :: b in branches[..k] ==> b in branches
      invariant n == |Matching(branches[..k], v, root, stack, l)|
      invariant n > 0 <==> SomeBranch(branches[..k], v, root, stack, l)
    {
      assert branches[..k + 1] == branches[..k] + [branches[k]];
      OneMoreBranch(branches[..k], branches[k], v, root, stack, l);
      if branches[k].Obj? {
        var own := new Diagnostics();
        ValidateNode(branches[k], v, root, path, own, stack, l);
        if own.entries == [] {
          n := n + 1;
          if stop {
            SomeBranchStays(branches, branches[k], v, root, stack, l);
            return;
          }
        }
      }
    }
    assert branches[..|branches|] == branches;
  }

  lemma NoMatch(branches: seq<Json>, v: Json, root: Json, stack: set<string>, l: Language)
    requires branches == []
    ensures Matching(branches, v, root, stack, l) == {} && !SomeBranch(branches, v, root, stack, l)
  {
  }

  lemma SomeBranchStays(branches: seq<Json>, b: Json, v: Json, root: Json, stack: set<string>, l: Language)
    requires forall b :: b in branches && b.Obj? ==> Contained(b, root)
    requires b in branches && b.Obj? && Valid(b, v, root, stack, l)
    ensures SomeBranch(branches, v, root, stack, l)
  {
  }

  lemma OneMoreBranch(branches: seq<Json>, b: Json, v: Json, root: Json, stack: set<string>, l: Language)
    requires forall x :: x in branches + [b] && x.Obj? ==> Contained(x, root)
    requires b.Obj? ==> Contained(b, root)
    requires forall x :: x in branches && x.Obj? ==> Contained(x, root)
    ensures |Matching(branches + [b], v, root, stack, l)|
            == |Matching(branches, v, root, stack, l)| + if b.Obj? && Valid(b, v, root, stack, l) then 1 else 0
    ensures SomeBranch(branches + [b], v, root, stack, l) <==> SomeBranch(branches, v, root, stack, l) || (b.Obj? && Valid(b, v, root, stack, l))
  {
    hide Valid, Refs, Contained;
    MatchingGrows(branches, b, v, root, stack, l);
    hide Matching;
    assert b in branches + [b];
    assert forall x :: x in branches ==> x in branches + [b];
  }

  lemma MatchingGrows(branches: seq<Json>, b: Json, v: Json, root: Json, stack: set<string>, l: Language)
    requires forall x :: x in branches + [b] && x.Obj? ==> Contained(x, root)
    requires b.Obj? ==> Contained(b, root)
    requires forall x :: x in branches && x.Obj? ==> Contained(x, root)
    ensures |Matching(branches + [b], v, root, stack, l)|
            == |Matching(branches, v, root, stack, l)| + if b.Obj? && Valid(b, v, root, stack, l) then 1 else 0
  {
    hide Valid, Refs, Contained;
    var n := |branches|;
    var more := branches + [b];
    var smaller := Matching(branches, v, root, stack, l);
    var larger := Matching(more, v, root, stack, l);
    forall i ensures i in larger <==> i in smaller || (i == n && b.Obj? && Valid(b, v, root, stack, l)) {
      if 0 <= i < n { assert more[i] == branches[i]; }
    }
    if b.Obj? && Valid(b, v, root, stack, l) {
      assert larger == smaller + {n};
    } else {
      assert larger == smaller;
    }
  }

  /** The descent into items and properties, under the same stack. */
  method ValidateParts(s: Json, v: Json, root: Json, path: string, d: Diagnostics, stack: set<string>, l: Language)
    requires Contained(s, root)
    modifies d
    ensures old(d.entries) <= d.entries && (d.entries == old(d.entries) <==> PartsValid(s, v, root, stack, l))
    decreases |Refs(root) - stack|, Size(s), 1
  {
    PartsAreContained(s, root);
    PartsAreSmaller(s);
    hide Valid, Refs, Size, MembersValid, ItemsValid, ItemSchema, PropertySchema;
    ghost var before := d.entries;
    var items := ItemSchema(s);
    if v.Arr? && items.Some? { ValidateItems(s, items.value, v.items, root, path, d, stack, l); }
    if v.Obj? { ValidateMembers(s, v.members, root, path, d, stack, l); }
  }

  method ValidateItems(ghost s: Json, items: Json, values: seq<Json>, root: Json, path: string, d: Diagnostics, stack: set<string>, l: Language)
    requires Contained(items, root) && Size(items) < Size(s)
    modifies d
    ensures old(d.entries) <= d.entries && (d.entries == old(d.entries) <==> ItemsValid(items, values, root, stack, l))
    decreases |Refs(root) - stack|, Size(items), 3
  {
    hide Valid, Refs, Size;
    ghost var before := d.entries;
    for k := 0 to |values|
      invariant before <= d.entries
      invariant d.entries == before <==> forall i :: 0 <= i < k ==> Valid(items, values[i], root, stack, l)
    {
      ValidateNode(items, values[k], root, path + "/" + Digits(k), d, stack, l);
    }
  }

  method ValidateMembers(s: Json, members: seq<Member>, root: Json, path: string, d: Diagnostics, stack: set<string>, l: Language)
    requires Contained(s, root)
    modifies d
    ensures old(d.entries) <= d.entries && (d.entries == old(d.entries) <==> MembersValid(s, members, root, stack, l))
    decreases |Refs(root) - stack|, Size(s), 0
  {
    PartsAreSmaller(s);
    hide Valid, Refs, Size, MemberValid, PropertySchema;
    ghost var before := d.entries;
    assert MembersValid(s, members[..0], root, stack, l);
    hide MembersValid;
    for k := 0 to |members|
      invariant before <= d.entries
      invariant d.entries == before <==> MembersValid(s, members[..k], root, stack, l)
    {
      var key := members[k].key;
      var property := PropertySchema(s, key);
      MemberStep(s, members[k], root, stack, l);
      ghost var start := d.entries;
      if property.Some? {
        ValidateNode(property.value, members[k].value, root, path + "/" + key, d, stack, l);
      } else {
        Check(!ForbidsAdditional(s), path + "/" + key + ": additional property is forbidden", d);
      }
      assert d.entries == before <==> start == before && d.entries == start;
      PrefixValid(s, members, k, root, stack, l);
    }
    assert members[..|members|] == members;
  }

  lemma PrefixValid(s: Json, members: seq<Member>, k: nat, root: Json, stack: set<string>, l: Language)
    requires k < |members| && Contained(s, root)
    ensures MembersValid(s, members[..k + 1], root, stack, l)
            <==> MembersValid(s, members[..k], root, stack, l) && MemberValid(s, members[k], root, stack, l)
  {
    hide MemberValid;
    assert members[..k + 1] == members[..k] + [members[k]];
  }

  lemma MemberStep(s: Json, member: Member, root: Json, stack: set<string>, l: Language)
    requires Contained(s, root)
    ensures var property := PropertySchema(s, member.key);
            && (property.Some? ==> Contained(property.value, root))
            && (MemberValid(s, member, root, stack, l)
                <==> if property.Some? then Valid(property.value, member.value, root, stack, l) else !ForbidsAdditional(s))
  {
    PartsAreContained(s, root);
  }

  method ValidateJsonSchemaInstance(schema: Json, value: Json, l: Language) returns (entries: seq<string>)
    ensures entries == [] <==> schema.Obj? && Valid(schema, value, schema, {}, l)
  {
    if !schema.Obj? { return ["/: schema must be an object"]; }
    var d := new Diagnostics();
    ValidateNode(schema, value, schema, "", d, {}, l);
    return d.entries;
  }

  // ---- What the stack means ----

  /** The references of every reference's target rank below it, so no chain of references returns. */
  ghost predicate Acyclic(root: Json, l: Language, rank: string -> nat) {
    forall r, q :: r in Refs(root) && Target(root, r, l, {}).Some? && q in Refs(Target(root, r, l, {}).value) ==> rank(q) < rank(r)
  }

  /** On acyclic schemas the stack never decides: any two stacks of references above the schema's own agree. */
  lemma {:induction false} StackIsIrrelevant(s: Json, v: Json, root: Json, one: set<string>, other: set<string>, l: Language, rank: string -> nat, bound: nat)
    requires Contained(s, root) && Acyclic(root, l, rank)
    requires forall r :: r in Refs(s) ==> rank(r) < bound
    requires forall r :: r in one + other ==> rank(r) >= bound
    ensures Valid(s, v, root, one, l) <==> Valid(s, v, root, other, l)
    decreases bound, Size(s), 1
  {
    PartsAreContained(s, s);
    hide Valid, Size, LocalOk, PartsValid, SomeBranch, Matching, FormOf;
    match FormOf(s) {
      case IsRef(r) =>
        hide Refs;
        ValidOfRef(s, v, root, one, l);
        ValidOfRef(s, v, root, other, l);
        assert r !in one && r !in other;
        var target := Target(root, r, l, {});
        assert Target(root, r, l, one) == target == Target(root, r, l, other);
        if target.Some? {
          StackIsIrrelevant(target.value, v, root, one + {r}, other + {r}, l, rank, rank(r));
        }
      case IsAnyOf(branches) =>
        ValidOfBranches(s, v, root, one, l);
        ValidOfBranches(s, v, root, other, l);
        BranchesAgree(s, branches, v, root, one, other, l, rank, bound);
      case IsOneOf(branches) =>
        ValidOfBranches(s, v, root, one, l);
        ValidOfBranches(s, v, root, other, l);
        BranchesAgree(s, branches, v, root, one, other, l, rank, bound);
      case IsPlain =>
        ValidOfPlain(s, v, root, one, l);
        ValidOfPlain(s, v, root, other, l);
        PartsAgree(s, v, root, one, other, l, rank, bound);
    }
  }

  lemma {:induction false} BranchesAgree(s: Json, branches: seq<Json>, v: Json, root: Json, one: set<string>, other: set<string>, l: Language, rank: string -> nat, bound: nat)
    requires Acyclic(root, l, rank)
    requires forall b :: b in branches && b.Obj? ==> Contained(b, root) && Size(b) < Size(s) && forall r :: r in Refs(b) ==> rank(r) < bound
    requires forall r :: r in one + other ==> rank(r) >= bound
    ensures SomeBranch(branches, v, root, one, l) <==> SomeBranch(branches, v, root, other, l)
    ensures Matching(branches, v, root, one, l) == Matching(branches, v, root, other, l)
    decreases bound, Size(s), 0
  {
    hide Valid, Refs, Size, Acyclic;
    forall b | b in branches && b.Obj? ensures Valid(b, v, root, one, l) <==> Valid(b, v, root, other, l) {
      StackIsIrrelevant(b, v, root, one, other, l, rank, bound);
    }
  }

  lemma {:induction false} PartsAgree(s: Json, v: Json, root: Json, one: set<string>, other: set<string>, l: Language, rank: string -> nat, bound: nat)
    requires Contained(s, root) && Acyclic(root, l, rank)
    requires forall r :: r in Refs(s) ==> rank(r) < bound
    requires forall r :: r in one + other ==> rank(r) >= bound
    ensures PartsValid(s, v, root, one, l) <==> PartsValid(s, v, root, other, l)
    decreases bound, Size(s), 0
  {
    PartsAreContained(s, root);
    PartsAreContained(s, s);
    PartsAreSmaller(s);
    hide Valid, Refs, Size, Acyclic, MemberValid, PropertySchema, ItemSchema;
    if v.Arr? && ItemSchema(s).Some? {
      forall i | 0 <= i < |v.items| ensures Valid(ItemSchema(s).value, v.items[i], root, one, l) <==> Valid(ItemSchema(s).value, v.items[i], root, other, l) {
        StackIsIrrelevant(ItemSchema(s).value, v.items[i], root, one, other, l, rank, bound);
      }
    }
    if v.Obj? {
      forall i | 0 <= i < |v.members| ensures MemberValid(s, v.members[i], root, one, l) <==> MemberValid(s, v.members[i], root, other, l) {
        MemberStep(s, v.members[i], root, one, l);
        MemberStep(s, v.members[i], root, other, l);
        var property := PropertySchema(s, v.members[i].key);
        if property.Some? { StackIsIrrelevant(property.value, v.members[i].value, root, one, other, l, rank, bound); }
      }
    }
  }

  const Link := Obj([Member("$ref", Str("#"))])

  /** A list schema: an object whose `next` is again such a list. */
  const ListSchema := Obj([Member("properties", Obj([Member("next", Link)]))])

  const Empty := Obj([])

  const OneLink := Obj([Member("next", Empty)])

  lemma ListSchemaParts()
    ensures Contained(Link, ListSchema) && Contained(ListSchema, ListSchema)
    ensures FormOf(Link) == IsRef("#") && FormOf(ListSchema) == IsPlain
    ensures PropertySchema(ListSchema, "next") == Some(Link)
    ensures ItemSchema(ListSchema) == None
    ensures forall v, l :: LocalOk(ListSchema, v, l)
  {
    ListSchemaFields();
    ListSchemaRefs();
    hide Refs, Get;
  }

  lemma ListSchemaFields()
    ensures Field(Link, "$ref") == Some(Str("#"))
    ensures Field(ListSchema, "properties") == Some(Obj([Member("next", Link)]))
    ensures Get([Member("next", Link)], "next") == Some(Link)
    ensures forall key :: key != "properties" ==> Field(ListSchema, key) == None
  {
    assert ListSchema.members[1..] == [];
  }

  lemma ListSchemaRefs()
    ensures Refs(Link) <= Refs(ListSchema)
  {
    ListSchemaFields();
    hide Refs;
    RefsOfField(Obj([Member("next", Link)]), "next");
    RefsOfField(ListSchema, "properties");
  }

  lemma ListStep(v: Json, stack: set<string>, l: Language)
    requires Contained(Link, ListSchema) && Contained(ListSchema, ListSchema)
    ensures Valid(Link, v, ListSchema, stack, l) <==> "#" !in stack && Valid(ListSchema, v, ListSchema, stack + {"#"}, l)
    ensures v == Empty ==> Valid(ListSchema, v, ListSchema, stack, l)
    ensures v == OneLink ==> (Valid(ListSchema, v, ListSchema, stack, l) <==> Valid(Link, Empty, ListSchema, stack, l))
  {
    hide Valid, Refs;
    ListSchemaParts();
    ValidOfRef(Link, v, ListSchema, stack, l);
    ValidOfPlain(ListSchema, v, ListSchema, stack, l);
    assert Pointer(ListSchema, "#", l.decode) == Some(ListSchema);
    if v == OneLink {
      var member := Member("next", Empty);
      MemberStep(ListSchema, member, ListSchema, stack, l);
      assert v.members[0] == member && |v.members| == 1;
      hide MemberValid;
      assert MembersValid(ListSchema, v.members, ListSchema, stack, l) <==> MemberValid(ListSchema, member, ListSchema, stack, l);
    }
  }

  /**
   * On a recursive schema a reference is not transparent: the list schema accepts a list of one link,
   * and the reference to that very schema rejects it, because the stack reaches into properties.
   */
  lemma RecursiveReferencesAreNotTransparent(l: Language)
    ensures Contained(Link, ListSchema) && Contained(ListSchema, ListSchema)
    ensures Target(ListSchema, "#", l, {}) == Some(ListSchema)
    ensures Valid(ListSchema, OneLink, ListSchema, {}, l)
    ensures !Valid(Link, OneLink, ListSchema, {}, l)
  {
    hide Valid, Refs;
    ListSchemaParts();
    assert Pointer(ListSchema, "#", l.decode) == Some(ListSchema);
    ListStep(OneLink, {}, l);
    ListStep(Empty, {}, l);
    ListStep(Empty, {"#"}, l);
    ListStep(OneLink, {"#"}, l);
    assert {} + {"#"} == {"#"};
  }
}

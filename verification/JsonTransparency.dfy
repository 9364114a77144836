/**
 * When a reference means its target. The stack makes a second use of a reference fail; this module says
 * exactly which values notice.
 */
module JsonTransparency {
  import opened Options
  import Paths
  import opened JsonValues
  import opened JsonSchema
  import opened JsonValidator

  // ---- The parts a schema hands a value on to ----

  datatype Part = Part(schema: Json, value: Json)

  function BranchParts(branches: seq<Json>, v: Json): seq<Part> {
    if branches == [] then []
    else
      var last := branches[|branches| - 1];
      BranchParts(branches[..|branches| - 1], v) + if last.Obj? then [Part(last, v)] else []
  }

  function MemberParts(s: Json, members: seq<Member>): seq<Part> {
    if members == [] then []
    else
      var last := members[|members| - 1];
      var property := PropertySchema(s, last.key);
      MemberParts(s, members[..|members| - 1]) + if property.Some? then [Part(property.value, last.value)] else []
  }

  /** Branches get the value itself, a plain schema's items and properties their parts of it; a reference is not a part. */
  function PartsOf(s: Json, v: Json): seq<Part> {
    match FormOf(s)
    case IsRef(_) => []
    case IsAnyOf(branches) => BranchParts(branches, v)
    case IsOneOf(branches) => BranchParts(branches, v)
    case IsPlain =>
      if v.Arr? && ItemSchema(s).Some? then seq(|v.items|, i requires 0 <= i < |v.items| => Part(ItemSchema(s).value, v.items[i]))
      else if v.Obj? then MemberParts(s, v.members)
      else []
  }

  predicate NothingForbidden(s: Json, v: Json) {
    v.Obj? ==> forall i :: 0 <= i < |v.members| ==> PropertySchema(s, v.members[i].key).Some? || !ForbidsAdditional(s)
  }

  function Trues(flags: seq<bool>): nat {
    if flags == [] then 0 else Trues(flags[..|flags| - 1]) + if flags[|flags| - 1] then 1 else 0
  }

  /** The verdict of a schema that is no reference, given the verdicts of its parts. */
  predicate Holds(s: Json, v: Json, l: Language, flags: seq<bool>) {
    match FormOf(s)
    case IsRef(_) => false
    case IsAnyOf(_) => true in flags
    case IsOneOf(_) => Trues(flags) == 1
    case IsPlain => LocalOk(s, v, l) && NothingForbidden(s, v) && false !in flags
  }

  ghost predicate GoodParts(parts: seq<Part>, root: Json, size: nat) {
    forall i :: 0 <= i < |parts| ==> Contained(parts[i].schema, root) && Size(parts[i].schema) < size
  }

  lemma {:induction false} BranchPartsAreGood(branches: seq<Json>, v: Json, root: Json, size: nat)
    requires forall b :: b in branches && b.Obj? ==> Contained(b, root) && Size(b) < size
    ensures GoodParts(BranchParts(branches, v), root, size)
  {
    hide Contained, Size;
    if branches != [] {
      assert branches[|branches| - 1] in branches;
      BranchPartsAreGood(branches[..|branches| - 1], v, root, size);
    }
  }

  lemma {:induction false} MemberPartsAreGood(s: Json, members: seq<Member>, root: Json)
    requires Contained(s, root)
    ensures GoodParts(MemberParts(s, members), root, Size(s))
  {
    if members != [] {
      MemberPartsAreGood(s, members[..|members| - 1], root);
      PartsAreContained(s, root);
      PartsAreSmaller(s);
      hide Refs, Size, PropertySchema;
    }
  }

  lemma PartsOfAreGood(s: Json, v: Json, root: Json)
    requires Contained(s, root)
    ensures GoodParts(PartsOf(s, v), root, Size(s))
  {
    PartsAreContained(s, root);
    PartsAreSmaller(s);
    hide Refs, Size;
    if FormOf(s).IsAnyOf? || FormOf(s).IsOneOf? {
      BranchPartsAreGood(FormOf(s).branches, v, root, Size(s));
    } else if v.Obj? {
      MemberPartsAreGood(s, v.members, root);
    }
  }

  ghost function Flags(parts: seq<Part>, root: Json, stack: set<string>, l: Language): (flags: seq<bool>)
    requires forall i :: 0 <= i < |parts| ==> Contained(parts[i].schema, root)
    ensures |flags| == |parts| && forall i :: 0 <= i < |parts| ==> flags[i] == Valid(parts[i].schema, parts[i].value, root, stack, l)
  {
    seq(|parts|, i requires 0 <= i < |parts| => Valid(parts[i].schema, parts[i].value, root, stack, l))
  }

  lemma {:induction false} BranchFlags(branches: seq<Json>, v: Json, root: Json, stack: set<string>, l: Language)
    requires forall b :: b in branches && b.Obj? ==> Contained(b, root)
    requires forall i :: 0 <= i < |BranchParts(branches, v)| ==> Contained(BranchParts(branches, v)[i].schema, root)
    ensures var flags := Flags(BranchParts(branches, v), root, stack, l);
            && (true in flags <==> SomeBranch(branches, v, root, stack, l))
            && Trues(flags) == |Matching(branches, v, root, stack, l)|
  {
    hide Valid, Refs, Size;
    var parts := BranchParts(branches, v);
    if branches == [] {
      NoMatch(branches, v, root, stack, l);
    } else {
      var front, last := branches[..|branches| - 1], branches[|branches| - 1];
      var fewer := BranchParts(front, v);
      assert branches == front + [last] && last in branches;
      assert forall i :: 0 <= i < |fewer| ==> fewer[i] == parts[i];
      BranchFlags(front, v, root, stack, l);
      OneMoreBranch(front, last, v, root, stack, l);
      var flags := Flags(parts, root, stack, l);
      if last.Obj? {
        assert parts == fewer + [Part(last, v)];
        assert flags == Flags(fewer, root, stack, l) + [Valid(last, v, root, stack, l)];
        assert flags[..|flags| - 1] == Flags(fewer, root, stack, l);
      } else {
        assert parts == fewer;
      }
    }
  }

  lemma MembersSplit(s: Json, front: seq<Member>, last: Member, root: Json, stack: set<string>, l: Language)
    requires Contained(s, root)
    ensures MembersValid(s, front + [last], root, stack, l) <==> MembersValid(s, front, root, stack, l) && MemberValid(s, last, root, stack, l)
  {
    hide MemberValid, Refs;
    var members := front + [last];
    assert forall i :: 0 <= i < |front| ==> members[i] == front[i];
    assert members[|front|] == last;
  }

  lemma {:induction false} MemberFlags(s: Json, members: seq<Member>, root: Json, stack: set<string>, l: Language)
    requires Contained(s, root)
    requires forall i :: 0 <= i < |MemberParts(s, members)| ==> Contained(MemberParts(s, members)[i].schema, root)
    ensures MembersValid(s, members, root, stack, l)
            <==> false !in Flags(MemberParts(s, members), root, stack, l)
                 && forall i :: 0 <= i < |members| ==> PropertySchema(s, members[i].key).Some? || !ForbidsAdditional(s)
  {
    hide Valid, Refs, Size, PropertySchema, MemberValid;
    if members != [] {
      var front, last := members[..|members| - 1], members[|members| - 1];
      var parts, fewer := MemberParts(s, members), MemberParts(s, front);
      assert forall i :: 0 <= i < |fewer| ==> fewer[i] == parts[i];
      MemberFlags(s, front, root, stack, l);
      MemberStep(s, last, root, stack, l);
      MembersSplit(s, front, last, root, stack, l);
      assert members == front + [last];
      var flags := Flags(parts, root, stack, l);
      var property := PropertySchema(s, last.key);
      if property.Some? {
        assert parts == fewer + [Part(property.value, last.value)];
        assert flags[|fewer|] == Valid(property.value, last.value, root, stack, l);
        assert flags == Flags(fewer, root, stack, l) + [Valid(property.value, last.value, root, stack, l)];
      } else {
        assert parts == fewer;
      }
    }
  }

  /** A schema that is no reference holds by the verdicts of its parts. */
  lemma ValidHolds(s: Json, v: Json, root: Json, stack: set<string>, l: Language)
    requires Contained(s, root) && !FormOf(s).IsRef? && GoodParts(PartsOf(s, v), root, Size(s))
    ensures Valid(s, v, root, stack, l) <==> Holds(s, v, l, Flags(PartsOf(s, v), root, stack, l))
  {
    hide Valid, Refs, Size, LocalOk, PropertySchema, ItemSchema, Get;
    match FormOf(s) {
      case IsAnyOf(branches) =>
        ValidOfBranches(s, v, root, stack, l);
        BranchFlags(branches, v, root, stack, l);
      case IsOneOf(branches) =>
        ValidOfBranches(s, v, root, stack, l);
        BranchFlags(branches, v, root, stack, l);
      case IsPlain =>
        ValidOfPlain(s, v, root, stack, l);
        if v.Obj? {
          MemberFlags(s, v.members, root, stack, l);
        } else if v.Arr? && ItemSchema(s).Some? {
          PartsAreContained(s, root);
          ItemFlags(s, v, root, stack, l);
        }
    }
  }

  lemma ItemFlags(s: Json, v: Json, root: Json, stack: set<string>, l: Language)
    requires Contained(s, root) && FormOf(s).IsPlain? && v.Arr? && ItemSchema(s).Some? && GoodParts(PartsOf(s, v), root, Size(s))
    requires Contained(ItemSchema(s).value, root)
    ensures ItemsValid(ItemSchema(s).value, v.items, root, stack, l) <==> false !in Flags(PartsOf(s, v), root, stack, l)
  {
    hide Valid, Refs, Size, ItemSchema, FormOf;
    var flags := Flags(PartsOf(s, v), root, stack, l);
    assert forall i :: 0 <= i < |flags| ==> flags[i] == Valid(ItemSchema(s).value, v.items[i], root, stack, l);
    assert false in flags <==> exists i :: 0 <= i < |flags| && !flags[i];
  }

  // ---- Which values notice that a reference is being resolved ----

  function Xor(flags: seq<bool>, turned: seq<bool>): (r: seq<bool>)
    requires |flags| == |turned|
    ensures |r| == |flags| && forall i :: 0 <= i < |r| ==> r[i] == (flags[i] != turned[i])
  {
    seq(|flags|, i requires 0 <= i < |flags| => flags[i] != turned[i])
  }

  /**
   * The verdict on the value turns when `r` stops resolving: at `r` itself if the value is accepted
   * there, elsewhere if the turned verdicts of the parts add up to another verdict.
   */
  ghost predicate Turns(s: Json, v: Json, root: Json, stack: set<string>, l: Language, r: string)
    requires Contained(s, root)
    decreases |Refs(root) - stack|, Size(s), 1
  {
    if FormOf(s).IsRef? then
      var q := FormOf(s).reference;
      var target := Target(root, q, l, stack);
      PartsAreContained(s, root);
      TargetIsContained(root, q, l, stack);
      StackShrinks(root, q, stack);
      if q in stack || target.None? then false
      else if q == r then Valid(target.value, v, root, stack + {q}, l)
      else Turns(target.value, v, root, stack + {q}, l, r)
    else
      PartsOfAreGood(s, v, root);
      var flags := Flags(PartsOf(s, v), root, stack, l);
      Holds(s, v, l, flags) != Holds(s, v, l, Xor(flags, TurnFlags(PartsOf(s, v), root, stack, l, r, Size(s))))
  }

  ghost function TurnFlags(parts: seq<Part>, root: Json, stack: set<string>, l: Language, r: string, size: nat): (turned: seq<bool>)
    requires GoodParts(parts, root, size)
    ensures |turned| == |parts| && forall i :: 0 <= i < |parts| ==> turned[i] == Turns(parts[i].schema, parts[i].value, root, stack, l, r)
    decreases |Refs(root) - stack|, size, 0
  {
    seq(|parts|, i requires 0 <= i < |parts| => Turns(parts[i].schema, parts[i].value, root, stack, l, r))
  }

  /** Putting a reference on the stack turns exactly the verdicts that `Turns` names. */
  lemma {:induction false} StackTurnsIff(s: Json, v: Json, root: Json, stack: set<string>, l: Language, r: string)
    requires Contained(s, root) && r !in stack
    ensures Valid(s, v, root, stack + {r}, l) <==> (Valid(s, v, root, stack, l) != Turns(s, v, root, stack, l, r))
    decreases |Refs(root) - stack|, Size(s)
  {
    if FormOf(s).IsRef? {
      var q := FormOf(s).reference;
      ValidOfRef(s, v, root, stack, l);
      ValidOfRef(s, v, root, stack + {r}, l);
      StackShrinks(root, q, stack);
      hide Valid, Refs;
      if q != r && q !in stack {
        var target := Target(root, q, l, stack);
        assert Target(root, q, l, stack + {r}) == target;
        assert stack + {r} + {q} == stack + {q} + {r};
        if target.Some? { StackTurnsIff(target.value, v, root, stack + {q}, l, r); }
      }
    } else {
      PartsOfAreGood(s, v, root);
      ValidHolds(s, v, root, stack, l);
      ValidHolds(s, v, root, stack + {r}, l);
      hide Valid, Refs, Size, Holds, PartsOf;
      var parts := PartsOf(s, v);
      forall i | 0 <= i < |parts|
        ensures Valid(parts[i].schema, parts[i].value, root, stack + {r}, l)
                <==> (Valid(parts[i].schema, parts[i].value, root, stack, l) != Turns(parts[i].schema, parts[i].value, root, stack, l, r))
      {
        StackTurnsIff(parts[i].schema, parts[i].value, root, stack, l, r);
      }
      var flags, turned := Flags(parts, root, stack, l), TurnFlags(parts, root, stack, l, r, Size(s));
      assert Flags(parts, root, stack + {r}, l) == Xor(flags, turned);
    }
  }

  /** Validation gets to a use of `r`: under each branch, item and property it descends into, wrong types aside. */
  ghost predicate Follows(s: Json, v: Json, root: Json, stack: set<string>, l: Language, r: string)
    requires Contained(s, root)
    decreases |Refs(root) - stack|, Size(s)
  {
    if FormOf(s).IsRef? then
      var q := FormOf(s).reference;
      var target := Target(root, q, l, stack);
      PartsAreContained(s, root);
      TargetIsContained(root, q, l, stack);
      StackShrinks(root, q, stack);
      q !in stack && target.Some? && (q == r || Follows(target.value, v, root, stack + {q}, l, r))
    else
      PartsOfAreGood(s, v, root);
      (FormOf(s).IsPlain? ==> TypeOk(s, v))
      && exists i :: 0 <= i < |PartsOf(s, v)| && Follows(PartsOf(s, v)[i].schema, PartsOf(s, v)[i].value, root, stack, l, r)
  }

  /** A value whose validation never gets to `r` does not notice. */
  lemma {:induction false} UnfollowedDoesNotTurn(s: Json, v: Json, root: Json, stack: set<string>, l: Language, r: string)
    requires Contained(s, root) && !Follows(s, v, root, stack, l, r)
    ensures !Turns(s, v, root, stack, l, r)
    decreases |Refs(root) - stack|, Size(s)
  {
    if FormOf(s).IsRef? {
      var q := FormOf(s).reference;
      PartsAreContained(s, root);
      TargetIsContained(root, q, l, stack);
      StackShrinks(root, q, stack);
      var target := Target(root, q, l, stack);
      if q !in stack && target.Some? && q != r { UnfollowedDoesNotTurn(target.value, v, root, stack + {q}, l, r); }
    } else {
      PartsOfAreGood(s, v, root);
      var parts := PartsOf(s, v);
      var flags, turned := Flags(parts, root, stack, l), TurnFlags(parts, root, stack, l, r, Size(s));
      if FormOf(s).IsPlain? && !TypeOk(s, v) {
        assert !Holds(s, v, l, flags) && !Holds(s, v, l, Xor(flags, turned));
      } else {
        forall i | 0 <= i < |parts| ensures !turned[i] { UnfollowedDoesNotTurn(parts[i].schema, parts[i].value, root, stack, l, r); }
        assert Xor(flags, turned) == flags;
      }
    }
  }

  /** Neither `anyOf` nor `oneOf` anywhere. */
  predicate Branchless(j: Json) {
    match j
    case Arr(items) => forall i :: 0 <= i < |items| ==> Branchless(items[i])
    case Obj(members) => !FormOf(j).IsAnyOf? && !FormOf(j).IsOneOf? && forall i :: 0 <= i < |members| ==> Branchless(members[i].value)
    case _ => true
  }

  lemma BranchlessField(j: Json, key: string)
    requires Branchless(j) && Field(j, key).Some?
    ensures Branchless(Field(j, key).value)
  {
    var i :| 0 <= i < |j.members| && j.members[i] == Member(key, Field(j, key).value);
  }

  lemma {:induction false} BranchlessMemberParts(s: Json, members: seq<Member>)
    requires Branchless(s)
    ensures forall i :: 0 <= i < |MemberParts(s, members)| ==> Branchless(MemberParts(s, members)[i].schema)
  {
    if members != [] {
      BranchlessMemberParts(s, members[..|members| - 1]);
      var key := members[|members| - 1].key;
      if PropertySchema(s, key).Some? {
        BranchlessField(s, "properties");
        BranchlessField(Field(s, "properties").value, key);
      }
    }
  }

  lemma BranchlessParts(s: Json, v: Json)
    requires s.Obj? && Branchless(s)
    ensures !FormOf(s).IsAnyOf? && !FormOf(s).IsOneOf?
    ensures forall i :: 0 <= i < |PartsOf(s, v)| ==> Branchless(PartsOf(s, v)[i].schema)
  {
    if FormOf(s).IsPlain? && v.Arr? && ItemSchema(s).Some? { BranchlessField(s, "items"); }
    if FormOf(s).IsPlain? && v.Obj? { BranchlessMemberParts(s, v.members); }
  }

  lemma {:induction false} BranchlessFollow(node: Option<Json>, tokens: seq<string>, decode: string -> string)
    requires node.Some? ==> Branchless(node.value)
    ensures Follow(node, tokens, decode).Some? ==> Branchless(Follow(node, tokens, decode).value)
    decreases |tokens|
  {
    if tokens != [] {
      var next := if node.Some? && node.value.Obj? then Get(node.value.members, Unescape(decode(tokens[0]))) else None;
      if next.Some? { BranchlessField(node.value, Unescape(decode(tokens[0]))); }
      BranchlessFollow(next, tokens[1..], decode);
    }
  }

  lemma BranchlessTarget(root: Json, q: string, l: Language, stack: set<string>)
    requires Branchless(root)
    ensures Target(root, q, l, stack).Some? ==> Branchless(Target(root, q, l, stack).value)
  {
    if |q| >= 2 && q[..2] == "#/" { BranchlessFollow(Some(root), Paths.Segments(q[2..]), l.decode); }
  }

  /** Without branches a verdict turns exactly when the value is accepted and its validation gets to `r`. */
  lemma {:induction false} BranchlessTurnsIff(s: Json, v: Json, root: Json, stack: set<string>, l: Language, r: string)
    requires Contained(s, root) && Branchless(s) && Branchless(root)
    ensures Turns(s, v, root, stack, l, r) <==> Valid(s, v, root, stack, l) && Follows(s, v, root, stack, l, r)
    decreases |Refs(root) - stack|, Size(s)
  {
    if FormOf(s).IsRef? {
      var q := FormOf(s).reference;
      ValidOfRef(s, v, root, stack, l);
      StackShrinks(root, q, stack);
      BranchlessTarget(root, q, l, stack);
      var target := Target(root, q, l, stack);
      if q !in stack && target.Some? && q != r { BranchlessTurnsIff(target.value, v, root, stack + {q}, l, r); }
    } else {
      PartsOfAreGood(s, v, root);
      BranchlessParts(s, v);
      ValidHolds(s, v, root, stack, l);
      WrongTypeIsInvalid(s, v, l);
      var parts := PartsOf(s, v);
      var flags, turned := Flags(parts, root, stack, l), TurnFlags(parts, root, stack, l, r, Size(s));
      forall i | 0 <= i < |parts|
        ensures turned[i] <==> flags[i] && Follows(parts[i].schema, parts[i].value, root, stack, l, r)
      {
        BranchlessTurnsIff(parts[i].schema, parts[i].value, root, stack, l, r);
      }
      if Holds(s, v, l, flags) {
        assert forall i :: 0 <= i < |flags| ==> flags[i];
        if i :| 0 <= i < |parts| && Follows(parts[i].schema, parts[i].value, root, stack, l, r) {
          assert !Xor(flags, turned)[i];
        } else {
          assert Xor(flags, turned) == flags;
        }
      } else {
        assert false in flags ==> false in Xor(flags, turned) by {
          if i :| 0 <= i < |flags| && !flags[i] { assert !Xor(flags, turned)[i]; }
        }
      }
    }
  }

  // ---- Transparency ----

  /** The reference accepts what its target does, as far as this value goes. */
  ghost predicate Transparent(s: Json, v: Json, root: Json, l: Language)
    requires Contained(s, root) && FormOf(s).IsRef?
    requires Target(root, FormOf(s).reference, l, {}).Some? && Contained(Target(root, FormOf(s).reference, l, {}).value, root)
  {
    Valid(s, v, root, {}, l) <==> Valid(Target(root, FormOf(s).reference, l, {}).value, v, root, {}, l)
  }

  /**
   * A reference means its target for a value if and only if the target's verdict on the value does not
   * turn when the reference stops resolving. Values whose validation does not get back to the reference
   * never notice, and without `anyOf` and `oneOf` exactly the accepted ones that do get back notice.
   */
  lemma TransparentIff(s: Json, v: Json, root: Json, l: Language)
    requires Contained(s, root) && FormOf(s).IsRef?
    requires Target(root, FormOf(s).reference, l, {}).Some? && Contained(Target(root, FormOf(s).reference, l, {}).value, root)
    ensures var r := FormOf(s).reference;
            var target := Target(root, r, l, {}).value;
            && (Transparent(s, v, root, l) <==> !Turns(target, v, root, {}, l, r))
            && (!Follows(target, v, root, {}, l, r) ==> Transparent(s, v, root, l))
            && (Branchless(root) ==>
                  (Transparent(s, v, root, l) <==> !(Valid(target, v, root, {}, l) && Follows(target, v, root, {}, l, r))))
  {
    var r := FormOf(s).reference;
    var target := Target(root, r, l, {}).value;
    ValidOfRef(s, v, root, {}, l);
    StackTurnsIff(target, v, root, {}, l, r);
    hide Valid, Refs, Turns, Follows;
    if !Follows(target, v, root, {}, l, r) { UnfollowedDoesNotTurn(target, v, root, {}, l, r); }
    if Branchless(root) {
      BranchlessTarget(root, r, l, {});
      BranchlessTurnsIff(target, v, root, {}, l, r);
    }
  }

  /** The references in `closed` lead nowhere else. */
  ghost predicate Closed(closed: set<string>, root: Json, l: Language) {
    forall q :: q in closed && Target(root, q, l, {}).Some? ==> Refs(Target(root, q, l, {}).value) <= closed
  }

  /** A reference that cannot be reached from a schema is not followed by any value. */
  lemma {:induction false} UnreachableIsNotFollowed(s: Json, v: Json, root: Json, stack: set<string>, l: Language, r: string, closed: set<string>)
    requires Contained(s, root) && Closed(closed, root, l) && Refs(s) <= closed && r !in closed
    ensures !Follows(s, v, root, stack, l, r)
    decreases |Refs(root) - stack|, Size(s)
  {
    PartsAreContained(s, s);
    if FormOf(s).IsRef? {
      var q := FormOf(s).reference;
      PartsAreContained(s, root);
      TargetIsContained(root, q, l, stack);
      StackShrinks(root, q, stack);
      var target := Target(root, q, l, stack);
      if q !in stack && target.Some? {
        assert target == Target(root, q, l, {});
        UnreachableIsNotFollowed(target.value, v, root, stack + {q}, l, r, closed);
      }
    } else {
      PartsOfAreGood(s, v, root);
      PartsOfAreGood(s, v, s);
      var parts := PartsOf(s, v);
      forall i | 0 <= i < |parts| ensures !Follows(parts[i].schema, parts[i].value, root, stack, l, r) {
        UnreachableIsNotFollowed(parts[i].schema, parts[i].value, root, stack, l, r, closed);
      }
    }
  }

  /** Hence a reference out of its own reach means its target for every value, whatever cycles lie elsewhere. */
  lemma UnreachableIsTransparent(s: Json, v: Json, root: Json, l: Language, closed: set<string>)
    requires Contained(s, root) && FormOf(s).IsRef? && Closed(closed, root, l) && FormOf(s).reference !in closed
    requires Target(root, FormOf(s).reference, l, {}).Some? && Contained(Target(root, FormOf(s).reference, l, {}).value, root)
    requires Refs(Target(root, FormOf(s).reference, l, {}).value) <= closed
    ensures Transparent(s, v, root, l)
  {
    hide Valid, Follows, Turns;
    UnreachableIsNotFollowed(Target(root, FormOf(s).reference, l, {}).value, v, root, {}, l, FormOf(s).reference, closed);
    TransparentIff(s, v, root, l);
  }
}

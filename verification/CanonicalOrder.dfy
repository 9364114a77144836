/** When canonical text is equal: the same JSON value, whatever order its objects list their keys in. */
module CanonicalOrder {
  import opened Options
  import opened Sets
  import opened JsonValues
  import opened CanonicalJson

  ghost predicate DistinctKeys(members: seq<Member>) {
    forall i, j :: 0 <= i < j < |members| ==> members[i].key != members[j].key
  }

  /** No object lists a key twice, as in every parsed value. */
  ghost predicate WellFormed(v: Json)
    decreases Depth(v)
  {
    ChildrenAreShallow(v, (a, b) => false);
    match v
    case Arr(items) => forall i :: 0 <= i < |items| ==> WellFormed(items[i])
    case Obj(members) => DistinctKeys(members) && forall i :: 0 <= i < |members| ==> WellFormed(members[i].value)
    case _ => true
  }

  /** Equal as JSON values: the order of members is of no account. */
  ghost predicate Same(v: Json, w: Json)
    decreases Depth(v)
  {
    ChildrenAreShallow(v, (a, b) => false);
    if v.Arr? && w.Arr? then
      |v.items| == |w.items| && forall i :: 0 <= i < |v.items| ==> Same(v.items[i], w.items[i])
    else if v.Obj? && w.Obj? then
      && |v.members| == |w.members|
      && forall i :: 0 <= i < |v.members| ==>
           Get(w.members, v.members[i].key).Some? && Same(v.members[i].value, Get(w.members, v.members[i].key).value)
    else v == w
  }

  ghost predicate StrictOrder(before: (string, string) -> bool) {
    && (forall a :: !before(a, a))
    && (forall a, b, c :: before(a, b) && before(b, c) ==> before(a, c))
  }

  /** The comparator tells any two keys apart. */
  ghost predicate Separates(before: (string, string) -> bool) {
    forall a, b :: a == b || before(a, b) || before(b, a)
  }

  ghost predicate AscendingKeys(members: seq<Member>, before: (string, string) -> bool) {
    forall i, j :: 0 <= i < j < |members| ==> before(members[i].key, members[j].key)
  }

  lemma {:induction false} InsertAscends(m: Member, sorted: seq<Member>, before: (string, string) -> bool)
    requires StrictOrder(before) && Separates(before) && AscendingKeys(sorted, before)
    requires forall x :: x in sorted ==> x.key != m.key
    ensures AscendingKeys(Insert(m, sorted, before), before)
  {
    if sorted != [] && before(sorted[0].key, m.key) {
      InsertAscends(m, sorted[1..], before);
      InsertKeeps(m, sorted[1..], before);
      forall x | x in Insert(m, sorted[1..], before) ensures before(sorted[0].key, x.key) {
        if x != m { assert x in sorted[1..]; }
      }
    }
  }

  lemma {:induction false} SortedAscends(members: seq<Member>, before: (string, string) -> bool)
    requires StrictOrder(before) && Separates(before) && DistinctKeys(members)
    ensures AscendingKeys(Sorted(members, before), before)
  {
    if members != [] {
      SortedAscends(members[1..], before);
      SortedKeeps(members[1..], before);
      forall x | x in Sorted(members[1..], before) ensures x.key != members[0].key {
        assert x in members[1..];
      }
      InsertAscends(members[0], Sorted(members[1..], before), before);
    }
  }

  ghost predicate HasKey(members: seq<Member>, key: string) {
    exists i :: 0 <= i < |members| && members[i].key == key
  }

  /** Two ascending lists of the same keys list them alike. */
  lemma {:induction false} SameKeysAgree(one: seq<Member>, other: seq<Member>, before: (string, string) -> bool)
    requires StrictOrder(before) && AscendingKeys(one, before) && AscendingKeys(other, before) && |one| == |other|
    requires forall i :: 0 <= i < |one| ==> HasKey(other, one[i].key)
    requires forall i :: 0 <= i < |other| ==> HasKey(one, other[i].key)
    ensures forall i :: 0 <= i < |one| ==> one[i].key == other[i].key
  {
    if one != [] {
      assert HasKey(other, one[0].key) && HasKey(one, other[0].key);
      assert one[0].key == other[0].key;
      RestHasKeys(one, other, before);
      RestHasKeys(other, one, before);
      SameKeysAgree(one[1..], other[1..], before);
      forall i | 0 <= i < |one| ensures one[i].key == other[i].key {
        if i > 0 { assert one[i] == one[1..][i - 1] && other[i] == other[1..][i - 1]; }
      }
    }
  }

  lemma RestHasKeys(one: seq<Member>, other: seq<Member>, before: (string, string) -> bool)
    requires StrictOrder(before) && AscendingKeys(one, before) && one != [] && other != [] && one[0].key == other[0].key
    requires forall i :: 0 <= i < |one| ==> HasKey(other, one[i].key)
    ensures forall i :: 0 <= i < |one[1..]| ==> HasKey(other[1..], one[1..][i].key)
  {
    forall i | 0 <= i < |one[1..]| ensures HasKey(other[1..], one[1..][i].key) {
      var key := one[i + 1].key;
      assert before(one[0].key, key);
      var j :| 0 <= j < |other| && other[j].key == key;
      assert j != 0 && other[1..][j - 1].key == key;
    }
  }

  /** With distinct keys, a member is what its key finds. */
  lemma GetIsMember(members: seq<Member>, m: Member)
    requires DistinctKeys(members) && m in members
    ensures Get(members, m.key) == Some(m.value)
  {
    var i :| 0 <= i < |members| && members[i] == m;
    var found := Get(members, m.key);
    if found.Some? {
      var j :| 0 <= j < |members| && members[j] == Member(m.key, found.value);
      assert i == j;
    }
  }

  lemma {:induction false} PrintMembersAgree(one: seq<Member>, other: seq<Member>, f: Format, depth: nat, otherDepth: nat)
    requires ShallowMembers(one, depth) && ShallowMembers(other, otherDepth) && |one| == |other|
    requires forall i :: 0 <= i < |one| ==> one[i].key == other[i].key && Print(one[i].value, f) == Print(other[i].value, f)
    ensures PrintMembers(one, f, depth) == PrintMembers(other, f, otherDepth)
  {
    if |one| > 1 { PrintMembersAgree(one[1..], other[1..], f, depth, otherDepth); }
  }

  lemma {:induction false} PrintItemsAgree(one: seq<Json>, other: seq<Json>, f: Format, depth: nat, otherDepth: nat)
    requires ShallowItems(one, depth) && ShallowItems(other, otherDepth) && |one| == |other|
    requires forall i :: 0 <= i < |one| ==> Print(one[i], f) == Print(other[i], f)
    ensures PrintItems(one, f, depth) == PrintItems(other, f, otherDepth)
  {
    if |one| > 1 { PrintItemsAgree(one[1..], other[1..], f, depth, otherDepth); }
  }

  /** The sorted members of equal objects pair up, key by key. */
  lemma SortedMembersPair(v: Json, w: Json, before: (string, string) -> bool)
    requires v.Obj? && w.Obj? && Same(v, w) && DistinctKeys(v.members) && DistinctKeys(w.members)
    requires StrictOrder(before) && Separates(before)
    ensures var one, other := Sorted(v.members, before), Sorted(w.members, before);
            |one| == |other|
            && forall i :: 0 <= i < |one| ==> one[i] in v.members && other[i] in w.members && one[i].key == other[i].key
                                              && Same(one[i].value, other[i].value)
  {
    var one, other := Sorted(v.members, before), Sorted(w.members, before);
    SortedKeeps(v.members, before);
    SortedKeeps(w.members, before);
    SortedAscends(v.members, before);
    SortedAscends(w.members, before);
    SameMembersFound(v, w);
    KeysCover(v.members, w.members);
    hide Sorted, Same, DistinctKeys, AscendingKeys, HasKey, StrictOrder;
    forall i | 0 <= i < |other| ensures HasKey(one, other[i].key) {
      assert other[i] in w.members;
      var m := KeyedMember(v.members, other[i].key);
      MemberHasKey(one, m);
    }
    forall i | 0 <= i < |one| ensures HasKey(other, one[i].key) {
      assert one[i] in v.members;
      var m := KeyedMember(w.members, one[i].key);
      MemberHasKey(other, m);
    }
    SameKeysAgree(one, other, before);
    forall i | 0 <= i < |one| ensures Same(one[i].value, other[i].value) {
      assert one[i] in v.members && other[i] in w.members;
      GetIsMember(w.members, other[i]);
    }
  }

  lemma SameMembersFound(v: Json, w: Json)
    requires v.Obj? && w.Obj? && Same(v, w)
    ensures |v.members| == |w.members|
    ensures forall m :: m in v.members ==> HasKey(w.members, m.key)
    ensures forall m :: m in v.members ==> Get(w.members, m.key).Some? && Same(m.value, Get(w.members, m.key).value)
  {
    forall m | m in v.members
      ensures HasKey(w.members, m.key) && Get(w.members, m.key).Some? && Same(m.value, Get(w.members, m.key).value)
    {
      var i :| 0 <= i < |v.members| && v.members[i] == m;
    }
  }

  /** As many distinct keys, all of them found, leave no key over. */
  lemma KeysCover(one: seq<Member>, other: seq<Member>)
    requires DistinctKeys(one) && DistinctKeys(other) && |one| == |other|
    requires forall m :: m in one ==> HasKey(other, m.key)
    ensures forall m :: m in other ==> HasKey(one, m.key)
  {
    KeyCount(one);
    KeyCount(other);
    KeySetIsKeys(one);
    KeySetIsKeys(other);
    hide KeySet, HasKey, DistinctKeys;
    forall key | HasKey(one, key) ensures HasKey(other, key) {
      var m := KeyedMember(one, key);
    }
    SubsetOfEqualSize(KeySet(one), KeySet(other));
    forall m | m in other ensures HasKey(one, m.key) {
      MemberHasKey(other, m);
    }
  }

  lemma KeyedMember(members: seq<Member>, key: string) returns (m: Member)
    requires HasKey(members, key)
    ensures m in members && m.key == key
  {
    var i :| 0 <= i < |members| && members[i].key == key;
    m := members[i];
  }

  lemma MemberHasKey(members: seq<Member>, m: Member)
    requires m in members
    ensures HasKey(members, m.key)
  {
  }

  function KeySet(members: seq<Member>): set<string> {
    if members == [] then {} else KeySet(members[..|members| - 1]) + {members[|members| - 1].key}
  }

  lemma {:induction false} KeySetIsKeys(members: seq<Member>)
    ensures forall key :: key in KeySet(members) <==> HasKey(members, key)
  {
    if members != [] {
      var front, last := members[..|members| - 1], members[|members| - 1];
      KeySetIsKeys(front);
      forall key ensures HasKey(members, key) <==> HasKey(front, key) || key == last.key {
        if HasKey(front, key) {
          var i :| 0 <= i < |front| && front[i].key == key;
          assert members[i].key == key;
        }
        if key == last.key { assert members[|front|].key == key; }
      }
    }
  }

  lemma {:induction false} KeyCount(members: seq<Member>)
    requires DistinctKeys(members)
    ensures |KeySet(members)| == |members|
  {
    if members != [] {
      var front, last := members[..|members| - 1], members[|members| - 1];
      KeyCount(front);
      KeySetIsKeys(front);
      assert !HasKey(front, last.key);
    }
  }

  /** Key order does not show in the text. */
  lemma {:induction false} SamePrints(v: Json, w: Json, f: Format)
    requires StrictOrder(f.before) && Separates(f.before) && WellFormed(v) && WellFormed(w) && Same(v, w)
    ensures Print(v, f) == Print(w, f)
    decreases Depth(v)
  {
    ChildrenAreShallow(v, f.before);
    ChildrenAreShallow(w, f.before);
    if v.Arr? && w.Arr? {
      forall i | 0 <= i < |v.items| ensures Print(v.items[i], f) == Print(w.items[i], f) {
        SamePrints(v.items[i], w.items[i], f);
      }
      PrintItemsAgree(v.items, w.items, f, Depth(v), Depth(w));
    } else if v.Obj? && w.Obj? {
      SortedMembersPair(v, w, f.before);
      var one, other := Sorted(v.members, f.before), Sorted(w.members, f.before);
      forall i | 0 <= i < |one| ensures Print(one[i].value, f) == Print(other[i].value, f) {
        SamePrints(one[i].value, other[i].value, f);
      }
      PrintMembersAgree(one, other, f, Depth(v), Depth(w));
    }
  }

  /** Equal canonical values are equal as JSON values, whatever the comparator. */
  lemma {:induction false} CanonIsSame(v: Json, w: Json, f: Format)
    requires WellFormed(v) && WellFormed(w) && Canon(v, f) == Canon(w, f)
    ensures Same(v, w)
    decreases Depth(v)
  {
    ChildrenAreShallow(v, f.before);
    ChildrenAreShallow(w, f.before);
    if v.Arr? && w.Arr? {
      var one, other := CanonItems(v.items, f, Depth(v)), CanonItems(w.items, f, Depth(w));
      forall i | 0 <= i < |v.items| ensures Same(v.items[i], w.items[i]) {
        assert one[i] == other[i];
        CanonIsSame(v.items[i], w.items[i], f);
      }
    } else if v.Obj? && w.Obj? {
      SortedKeeps(v.members, f.before);
      SortedKeeps(w.members, f.before);
      var one, other := Sorted(v.members, f.before), Sorted(w.members, f.before);
      var canonOne, canonOther := CanonMembers(one, f, Depth(v)), CanonMembers(other, f, Depth(w));
      forall i | 0 <= i < |v.members|
        ensures Get(w.members, v.members[i].key).Some? && Same(v.members[i].value, Get(w.members, v.members[i].key).value)
      {
        assert v.members[i] in one;
        var j :| 0 <= j < |one| && one[j] == v.members[i];
        assert canonOne[j] == canonOther[j];
        assert other[j] in w.members;
        GetIsMember(w.members, other[j]);
        CanonIsSame(v.members[i].value, other[j].value, f);
      }
    }
  }

  /** Canonical text is equal exactly when the values are. */
  lemma CanonicalTextIff(v: Json, w: Json, f: Format)
    requires Readable(v, f) && Readable(w, f) && StrictOrder(f.before) && Separates(f.before) && WellFormed(v) && WellFormed(w)
    ensures Print(v, f) == Print(w, f) <==> Same(v, w)
  {
    if Same(v, w) { SamePrints(v, w, f); }
    Decodes(v, f);
    Decodes(w, f);
    if Print(v, f) == Print(w, f) { CanonIsSame(v, w, f); }
  }

  /** Two keys that compare equal keep the order they were listed in, so the text differs. */
  lemma TiesKeepListedOrder(f: Format, a: string, b: string)
    requires a != b && !f.before(a, b) && !f.before(b, a)
    ensures var v, w := Obj([Member(a, Null), Member(b, Null)]), Obj([Member(b, Null), Member(a, Null)]);
            WellFormed(v) && WellFormed(w) && Same(v, w) && Print(v, f) != Print(w, f)
  {
    var one, other := Member(a, Null), Member(b, Null);
    var v, w := Obj([one, other]), Obj([other, one]);
    TwoMembersAreSame(a, b);
    Decodes(v, f);
    Decodes(w, f);
    CanonOfTied(one, other, f);
    CanonOfTied(other, one, f);
  }

  lemma CanonOfTied(one: Member, other: Member, f: Format)
    requires !f.before(other.key, one.key)
    ensures Canon(Obj([one, other]), f).Obj? && |Canon(Obj([one, other]), f).members| == 2
    ensures Canon(Obj([one, other]), f).members[0].key == one.key
  {
    TwoTied(one, other, f);
    ChildrenAreShallow(Obj([one, other]), f.before);
  }

  lemma TwoMembersAreSame(a: string, b: string)
    requires a != b
    ensures var v, w := Obj([Member(a, Null), Member(b, Null)]), Obj([Member(b, Null), Member(a, Null)]);
            WellFormed(v) && WellFormed(w) && Same(v, w)
  {
    var v, w := Obj([Member(a, Null), Member(b, Null)]), Obj([Member(b, Null), Member(a, Null)]);
    assert Member(a, Null) in w.members && Member(b, Null) in w.members by {
      assert w.members[0] == Member(b, Null) && w.members[1] == Member(a, Null);
    }
    GetIsMember(w.members, Member(a, Null));
    GetIsMember(w.members, Member(b, Null));
  }

  lemma TwoTied(one: Member, other: Member, f: Format)
    requires !f.before(other.key, one.key)
    ensures Sorted([one, other], f.before) == [one, other]
  {
    assert [one, other][1..] == [other] && [other][1..] == [];
    assert Sorted([other], f.before) == [other];
  }

  /** The printer is independent of key order exactly when its comparator separates all keys. */
  lemma KeyOrderIndependentIff(f: Format)
    requires StrictOrder(f.before)
    ensures (forall v, w :: WellFormed(v) && WellFormed(w) && Same(v, w) ==> Print(v, f) == Print(w, f)) <==> Separates(f.before)
  {
    hide Print, WellFormed, Same, StrictOrder;
    if Separates(f.before) {
      forall v, w | WellFormed(v) && WellFormed(w) && Same(v, w) ensures Print(v, f) == Print(w, f) {
        SamePrints(v, w, f);
      }
    } else {
      var a, b :| a != b && !f.before(a, b) && !f.before(b, a);
      TiesKeepListedOrder(f, a, b);
    }
  }
}

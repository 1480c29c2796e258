// Normalisation of policies: rules and members are collected in ordered maps and written back.
module PolicyUtil {
  import opened Base
  import opened OrderedMap
  import Manifests

  // ---------------------------------------------------------------- keys and comparators

  datatype MemberKey = MemberKey(name: string, memberType: int)
  datatype RuleKey = RuleKey(interfaceName: string, objPath: string)

  type MemberMap = seq<(MemberKey, bv8)>
  type RuleMap = seq<(RuleKey, MemberMap)>

  function KeyOf(m: Member): MemberKey { MemberKey(m.name, m.memberType) }
  function KeyOfRule(r: Rule): RuleKey { RuleKey(r.interfaceName, r.objPath) }

  // Strings compare character by character.
  predicate Before(a: string, b: string) {
    b != [] && (a == [] || a[0] < b[0] || (a[0] == b[0] && Before(a[1..], b[1..])))
  }

  // MemberCompare and RuleCompare: the second components decide unless the first ones are ascending.
  predicate MemberLess(a: MemberKey, b: MemberKey) {
    var comp := Before(a.name, b.name);
    if comp then comp else a.memberType < b.memberType
  }

  predicate RuleLess(a: RuleKey, b: RuleKey) {
    var comp := Before(a.interfaceName, b.interfaceName);
    if comp then comp else Before(a.objPath, b.objPath)
  }

  // ---------------------------------------------------------------- the maps as functions of the rules

  function AddMember(mmap: MemberMap, m: Member): MemberMap {
    var it := LowerBound(mmap, KeyOf(m), MemberLess);
    var mask := if Found(mmap, KeyOf(m), MemberLess) then mmap[it].1 | m.mask else m.mask;
    Put(mmap, KeyOf(m), mask, MemberLess)
  }

  function WithMembers(mmap: MemberMap, ms: seq<Member>): MemberMap
    decreases |ms|
  {
    if ms == [] then mmap else AddMember(WithMembers(mmap, ms[..|ms| - 1]), ms[|ms| - 1])
  }

  function AddRule(rmap: RuleMap, r: Rule): RuleMap {
    var it := LowerBound(rmap, KeyOfRule(r), RuleLess);
    var mmap := if Found(rmap, KeyOfRule(r), RuleLess) then rmap[it].1 else [];
    Put(rmap, KeyOfRule(r), WithMembers(mmap, r.members), RuleLess)
  }

  function WithRules(rs: seq<Rule>): RuleMap
    decreases |rs|
  {
    if rs == [] then [] else AddRule(WithRules(rs[..|rs| - 1]), rs[|rs| - 1])
  }

  function MembersOf(mmap: MemberMap): seq<Member> {
    seq(|mmap|, i requires 0 <= i < |mmap| => Member(mmap[i].0.name, mmap[i].0.memberType, mmap[i].1))
  }

  function RulesOf(rmap: RuleMap): seq<Rule> {
    seq(|rmap|, i requires 0 <= i < |rmap| =>
      Rule(rmap[i].0.interfaceName, rmap[i].0.objPath, MembersOf(rmap[i].1)))
  }

  function Normal(rs: seq<Rule>): seq<Rule> { RulesOf(WithRules(rs)) }

  // ---------------------------------------------------------------- when the comparators are orders

  lemma {:induction false} BeforeIrreflexive(a: string)
    ensures !Before(a, a)
  {
    if a != [] { BeforeIrreflexive(a[1..]); }
  }

  // b follows a in a dictionary: at the first difference it has the greater character, or a ends there.
  ghost predicate DiffersAt(a: string, b: string, n: nat) {
    n <= |a| && n < |b| && a[..n] == b[..n] && (n == |a| || a[n] < b[n])
  }

  lemma {:induction false} BeforeExactly(a: string, b: string)
    ensures Before(a, b) <==> exists n: nat :: DiffersAt(a, b, n)
    decreases |a|
  {
    if a == [] || b == [] {
      assert b != [] ==> DiffersAt(a, b, 0);
    } else {
      BeforeExactly(a[1..], b[1..]);
      if a[0] == b[0] && Before(a[1..], b[1..]) {
        var n: nat :| DiffersAt(a[1..], b[1..], n);
        assert a[..n + 1] == [a[0]] + a[1..][..n] && b[..n + 1] == [b[0]] + b[1..][..n];
        assert DiffersAt(a, b, n + 1);
      } else if Before(a, b) {
        assert DiffersAt(a, b, 0);
      }
      if n: nat :| DiffersAt(a, b, n) {
        if n > 0 {
          assert a[..n] == [a[0]] + a[1..][..n - 1] && b[..n] == [b[0]] + b[1..][..n - 1];
          assert a[0] == a[..n][0] && b[0] == b[..n][0];
          assert DiffersAt(a[1..], b[1..], n - 1);
        }
      }
    }
  }

  lemma {:induction false} BeforeTotal(a: string, b: string)
    ensures a == b || Before(a, b) || Before(b, a)
  {
    if a != [] && b != [] && a[0] == b[0] {
      BeforeTotal(a[1..], b[1..]);
      assert a == [a[0]] + a[1..] && b == [b[0]] + b[1..];
    }
  }

  lemma {:induction false} BeforeTransitive(a: string, b: string, c: string)
    requires Before(a, b) && Before(b, c)
    ensures Before(a, c)
  {
    if a != [] && a[0] == b[0] && b[0] == c[0] { BeforeTransitive(a[1..], b[1..], c[1..]); }
  }

  lemma BeforeAsymmetric(a: string, b: string)
    requires Before(a, b)
    ensures !Before(b, a)
  {
    if Before(b, a) {
      BeforeTransitive(a, b, a);
      BeforeIrreflexive(a);
    }
  }

  // Ascending in one component never goes with descending in the other one.
  ghost predicate Aligned(keys: set<MemberKey>) {
    forall a, b :: a in keys && b in keys && Before(a.name, b.name) ==> a.memberType <= b.memberType
  }

  ghost predicate AlignedRules(keys: set<RuleKey>) {
    forall a, b :: a in keys && b in keys && Before(a.interfaceName, b.interfaceName) ==> !Before(b.objPath, a.objPath)
  }

  lemma MemberLessTransitive(a: MemberKey, b: MemberKey, c: MemberKey)
    requires Aligned({a, b, c}) && MemberLess(a, b) && MemberLess(b, c)
    ensures MemberLess(a, c)
  {
    BeforeTotal(a.name, b.name);
    BeforeTotal(b.name, c.name);
    if Before(a.name, b.name) && Before(b.name, c.name) {
      BeforeTransitive(a.name, b.name, c.name);
    }
  }

  // Equal or ascending paths, in the presence of ascending interfaces.
  lemma PathsFollow(a: RuleKey, b: RuleKey)
    requires AlignedRules({a, b}) && RuleLess(a, b)
    ensures a.interfaceName == b.interfaceName || Before(a.interfaceName, b.interfaceName)
    ensures a.objPath == b.objPath || Before(a.objPath, b.objPath)
  {
    BeforeTotal(a.interfaceName, b.interfaceName);
    BeforeTotal(a.objPath, b.objPath);
    if Before(a.objPath, b.objPath) {
      BeforeAsymmetric(a.objPath, b.objPath);
    }
  }

  lemma RuleLessTransitive(a: RuleKey, b: RuleKey, c: RuleKey)
    requires AlignedRules({a, b, c}) && RuleLess(a, b) && RuleLess(b, c)
    ensures RuleLess(a, c)
  {
    PathsFollow(a, b);
    PathsFollow(b, c);
    if Before(a.interfaceName, b.interfaceName) && Before(b.interfaceName, c.interfaceName) {
      BeforeTransitive(a.interfaceName, b.interfaceName, c.interfaceName);
    }
    if Before(a.objPath, b.objPath) && Before(b.objPath, c.objPath) {
      BeforeTransitive(a.objPath, b.objPath, c.objPath);
    }
  }

  // MemberCompare orders a set of keys exactly if the keys are aligned.
  lemma MemberOrderExactly(keys: set<MemberKey>)
    ensures StrictOrder(MemberLess, keys) <==> Aligned(keys)
  {
    if Aligned(keys) {
      forall a | a in keys ensures !MemberLess(a, a) { BeforeIrreflexive(a.name); }
      forall a, b | a in keys && b in keys ensures a == b || MemberLess(a, b) || MemberLess(b, a) { BeforeTotal(a.name, b.name); }
      forall a, b, c | a in keys && b in keys && c in keys && MemberLess(a, b) && MemberLess(b, c) ensures MemberLess(a, c) {
        MemberLessTransitive(a, b, c);
      }
    } else {
      var a, b :| a in keys && b in keys && Before(a.name, b.name) && a.memberType > b.memberType;
      assert MemberLess(a, b) && MemberLess(b, a);
    }
  }

  lemma RuleOrderExactly(keys: set<RuleKey>)
    ensures StrictOrder(RuleLess, keys) <==> AlignedRules(keys)
  {
    if AlignedRules(keys) {
      forall a | a in keys ensures !RuleLess(a, a) { BeforeIrreflexive(a.interfaceName); BeforeIrreflexive(a.objPath); }
      forall a, b | a in keys && b in keys ensures a == b || RuleLess(a, b) || RuleLess(b, a) {
        BeforeTotal(a.interfaceName, b.interfaceName);
        BeforeTotal(a.objPath, b.objPath);
      }
      forall a, b, c | a in keys && b in keys && c in keys && RuleLess(a, b) && RuleLess(b, c) ensures RuleLess(a, c) {
        RuleLessTransitive(a, b, c);
      }
    } else {
      var a, b :| a in keys && b in keys && Before(a.interfaceName, b.interfaceName) && Before(b.objPath, a.objPath);
      assert RuleLess(a, b) && RuleLess(b, a);
    }
  }

  // Two members whose names ascend while their types descend are enough for MemberCompare not to be one.
  lemma MixedTypesAreUnordered(a: MemberKey, b: MemberKey)
    requires Before(a.name, b.name) && a.memberType > b.memberType
    ensures !StrictOrder(MemberLess, {a, b})
  {
    MemberOrderExactly({a, b});
  }

  // ---------------------------------------------------------------- what an ACL says

  // The masks of repeated members are ORed.
  function AddMask(masks: map<MemberKey, bv8>, m: Member): map<MemberKey, bv8> {
    masks[KeyOf(m) := if KeyOf(m) in masks then masks[KeyOf(m)] | m.mask else m.mask]
  }

  function AddMasks(masks: map<MemberKey, bv8>, ms: seq<Member>): map<MemberKey, bv8>
    decreases |ms|
  {
    if ms == [] then masks else AddMask(AddMasks(masks, ms[..|ms| - 1]), ms[|ms| - 1])
  }

  type AclMasks = map<RuleKey, map<MemberKey, bv8>>

  function MasksAt(masks: AclMasks, k: RuleKey): map<MemberKey, bv8> { if k in masks then masks[k] else map[] }

  function AddRuleMasks(masks: AclMasks, r: Rule): AclMasks {
    masks[KeyOfRule(r) := AddMasks(MasksAt(masks, KeyOfRule(r)), r.members)]
  }

  function Masks(rs: seq<Rule>): AclMasks
    decreases |rs|
  {
    if rs == [] then map[] else AddRuleMasks(Masks(rs[..|rs| - 1]), rs[|rs| - 1])
  }

  predicate MaskGrants(masks: map<MemberKey, bv8>, right: Manifests.Right) {
    var k := MemberKey(right.name, right.memberType);
    k in masks && masks[k] & right.action != 0
  }

  predicate MasksGrant(masks: AclMasks, right: Manifests.Right) {
    var k := RuleKey(right.interfaceName, right.objPath);
    k in masks && MaskGrants(masks[k], right)
  }

  lemma OrBits(x: bv8, y: bv8, action: bv8)
    ensures (x | y) & action != 0 <==> x & action != 0 || y & action != 0
  {
  }

  lemma AddMaskExact(masks: map<MemberKey, bv8>, m: Member, right: Manifests.Right)
    ensures MaskGrants(AddMask(masks, m), right) <==> MaskGrants(masks, right) || Manifests.MemberGrants(m, right)
  {
    if KeyOf(m) == MemberKey(right.name, right.memberType) && KeyOf(m) in masks {
      OrBits(masks[KeyOf(m)], m.mask, right.action);
    }
  }

  lemma {:induction false} AddMasksExact(masks: map<MemberKey, bv8>, ms: seq<Member>, right: Manifests.Right)
    ensures MaskGrants(AddMasks(masks, ms), right) <==> MaskGrants(masks, right) || Manifests.MembersGrant(ms, right)
    decreases |ms|
  {
    if ms != [] {
      AddMasksExact(masks, ms[..|ms| - 1], right);
      AddMaskExact(AddMasks(masks, ms[..|ms| - 1]), ms[|ms| - 1], right);
      Manifests.MembersGrantSplit(ms, right);
    }
  }

  // The masks grant what the rules grant.
  lemma {:induction false} MasksExact(rs: seq<Rule>, right: Manifests.Right)
    ensures MasksGrant(Masks(rs), right) <==> Manifests.Grants(rs, right)
    decreases |rs|
  {
    if rs != [] {
      var init, last := rs[..|rs| - 1], rs[|rs| - 1];
      MasksExact(init, right);
      Manifests.GrantsSplit(rs, right);
      var before := Masks(init);
      AddMasksExact(MasksAt(before, KeyOfRule(last)), last.members, right);
    }
  }

  // ---------------------------------------------------------------- key spaces

  // Which member keys may occur under which rule key.
  type Space = map<RuleKey, set<MemberKey>>

  ghost predicate MembersIn(ms: seq<Member>, keys: set<MemberKey>) {
    forall j :: 0 <= j < |ms| ==> KeyOf(ms[j]) in keys
  }

  ghost predicate InSpace(rs: seq<Rule>, space: Space) {
    forall i :: 0 <= i < |rs| ==> KeyOfRule(rs[i]) in space && MembersIn(rs[i].members, space[KeyOfRule(rs[i])])
  }

  ghost predicate AlignedSpace(space: Space) {
    AlignedRules(space.Keys) && forall k :: k in space ==> Aligned(space[k])
  }

  function SpaceOf(rs: seq<Rule>): Space { map k | k in Masks(rs) :: Masks(rs)[k].Keys }

  lemma {:induction false} AddMasksKeys(masks: map<MemberKey, bv8>, ms: seq<Member>)
    ensures masks.Keys <= AddMasks(masks, ms).Keys
    ensures MembersIn(ms, AddMasks(masks, ms).Keys)
    decreases |ms|
  {
    if ms != [] {
      AddMasksKeys(masks, ms[..|ms| - 1]);
      forall j | 0 <= j < |ms| ensures KeyOf(ms[j]) in AddMasks(masks, ms) {
        assert j < |ms| - 1 ==> KeyOf(ms[..|ms| - 1][j]) in AddMasks(masks, ms[..|ms| - 1]);
      }
    }
  }

  lemma {:induction false} RulesInTheirSpace(rs: seq<Rule>)
    ensures InSpace(rs, SpaceOf(rs))
    decreases |rs|
  {
    if rs != [] {
      var init, last := rs[..|rs| - 1], rs[|rs| - 1];
      RulesInTheirSpace(init);
      var before, k := Masks(init), KeyOfRule(last);
      var masks := if k in before then before[k] else map[];
      AddMasksKeys(masks, last.members);
      forall i | 0 <= i < |rs| ensures KeyOfRule(rs[i]) in SpaceOf(rs) && MembersIn(rs[i].members, SpaceOf(rs)[KeyOfRule(rs[i])]) {
        if i < |rs| - 1 {
          assert KeyOfRule(init[i]) in SpaceOf(init) && MembersIn(init[i].members, SpaceOf(init)[KeyOfRule(init[i])]);
        }
      }
    }
  }

  // ---------------------------------------------------------------- the maps, sorted

  ghost predicate GoodMembers(mmap: MemberMap, keys: set<MemberKey>) {
    KeysIn(mmap, keys) && Sorted(mmap, MemberLess)
  }

  ghost predicate GoodRules(rmap: RuleMap, space: Space) {
    && KeysIn(rmap, space.Keys) && Sorted(rmap, RuleLess)
    && forall e :: e in rmap ==> e.0 in space && GoodMembers(e.1, space[e.0])
  }

  function Contents(rmap: RuleMap): AclMasks
  {
    map k | k in AsMap(rmap) :: AsMap(AsMap(rmap)[k])
  }

  lemma AddMemberExact(mmap: MemberMap, m: Member, keys: set<MemberKey>)
    requires StrictOrder(MemberLess, keys) && GoodMembers(mmap, keys) && KeyOf(m) in keys
    ensures GoodMembers(AddMember(mmap, m), keys)
    ensures AsMap(AddMember(mmap, m)) == AddMask(AsMap(mmap), m)
  {
    FoundExactly(mmap, KeyOf(m), MemberLess, keys);
    var it := LowerBound(mmap, KeyOf(m), MemberLess);
    var mask := if Found(mmap, KeyOf(m), MemberLess) then mmap[it].1 | m.mask else m.mask;
    PutSorted(mmap, KeyOf(m), mask, MemberLess, keys);
    PutContents(mmap, KeyOf(m), mask, MemberLess, keys);
  }

  lemma {:induction false} WithMembersExact(mmap: MemberMap, ms: seq<Member>, keys: set<MemberKey>)
    requires StrictOrder(MemberLess, keys) && GoodMembers(mmap, keys) && MembersIn(ms, keys)
    ensures GoodMembers(WithMembers(mmap, ms), keys)
    ensures AsMap(WithMembers(mmap, ms)) == AddMasks(AsMap(mmap), ms)
    decreases |ms|
  {
    if ms != [] {
      WithMembersExact(mmap, ms[..|ms| - 1], keys);
      AddMemberExact(WithMembers(mmap, ms[..|ms| - 1]), ms[|ms| - 1], keys);
    }
  }

  lemma ContentsAt(rmap: RuleMap, space: Space, k: RuleKey)
    requires AlignedSpace(space) && GoodRules(rmap, space) && k in space
    ensures k in Contents(rmap) <==> Found(rmap, k, RuleLess)
    ensures Found(rmap, k, RuleLess) ==>
              var i := LowerBound(rmap, k, RuleLess);
              rmap[i].0 == k && Contents(rmap)[k] == AsMap(rmap[i].1) && AsMap(rmap)[k] == rmap[i].1
  {
    RuleOrderExactly(space.Keys);
    FoundExactly(rmap, k, RuleLess, space.Keys);
  }

  lemma PutRuleGood(rmap: RuleMap, k: RuleKey, v: MemberMap, space: Space)
    requires AlignedSpace(space) && GoodRules(rmap, space) && k in space && GoodMembers(v, space[k])
    ensures GoodRules(Put(rmap, k, v, RuleLess), space)
  {
    RuleOrderExactly(space.Keys);
    PutSorted(rmap, k, v, RuleLess, space.Keys);
    PutEntries(rmap, k, v, RuleLess, space.Keys);
  }

  lemma PutRuleContents(rmap: RuleMap, k: RuleKey, v: MemberMap, space: Space)
    requires AlignedSpace(space) && GoodRules(rmap, space) && k in space
    ensures Contents(Put(rmap, k, v, RuleLess)) == Contents(rmap)[k := AsMap(v)]
  {
    RuleOrderExactly(space.Keys);
    PutContents(rmap, k, v, RuleLess, space.Keys);
  }

  lemma AddRuleExact(rmap: RuleMap, r: Rule, space: Space)
    requires AlignedSpace(space) && GoodRules(rmap, space)
    requires KeyOfRule(r) in space && MembersIn(r.members, space[KeyOfRule(r)])
    ensures GoodRules(AddRule(rmap, r), space)
    ensures Contents(AddRule(rmap, r)) == AddRuleMasks(Contents(rmap), r)
  {
    var k := KeyOfRule(r);
    MemberOrderExactly(space[k]);
    ContentsAt(rmap, space, k);
    var mmap := if Found(rmap, k, RuleLess) then rmap[LowerBound(rmap, k, RuleLess)].1 else [];
    WithMembersExact(mmap, r.members, space[k]);
    PutRuleGood(rmap, k, WithMembers(mmap, r.members), space);
    PutRuleContents(rmap, k, WithMembers(mmap, r.members), space);
  }

  lemma {:induction false} WithRulesExact(rs: seq<Rule>, space: Space)
    requires AlignedSpace(space) && InSpace(rs, space)
    ensures GoodRules(WithRules(rs), space)
    ensures Contents(WithRules(rs)) == Masks(rs)
    decreases |rs|
  {
    if rs != [] {
      WithRulesExact(rs[..|rs| - 1], space);
      assert KeyOfRule(rs[|rs| - 1]) in space && MembersIn(rs[|rs| - 1].members, space[KeyOfRule(rs[|rs| - 1])]);
      AddRuleExact(WithRules(rs[..|rs| - 1]), rs[|rs| - 1], space);
    }
  }

  lemma ContentsDetermine(a: RuleMap, b: RuleMap, space: Space)
    requires AlignedSpace(space) && GoodRules(a, space) && GoodRules(b, space) && Contents(a) == Contents(b)
    ensures a == b
  {
    RuleOrderExactly(space.Keys);
    forall k | k in AsMap(a) ensures k in AsMap(b) && AsMap(a)[k] == AsMap(b)[k] {
      assert k in Contents(a) && k in Contents(b);
      KeysOfMap(a, k);
      ContentsAt(a, space, k);
      ContentsAt(b, space, k);
      MemberOrderExactly(space[k]);
      SortedIsUnique(AsMap(a)[k], AsMap(b)[k], MemberLess, space[k]);
    }
    forall k | k in AsMap(b) ensures k in AsMap(a) {
      assert k in Contents(b) && k in Contents(a);
    }
    assert AsMap(a) == AsMap(b);
    SortedIsUnique(a, b, RuleLess, space.Keys);
  }

  // ---------------------------------------------------------------- the loops

  lemma WithMembersNext(mmap: MemberMap, ms: seq<Member>, i: nat)
    requires i < |ms|
    ensures WithMembers(mmap, ms[..i + 1]) == AddMember(WithMembers(mmap, ms[..i]), ms[i])
  {
    assert ms[..i + 1][..i] == ms[..i];
  }

  lemma WithRulesNext(rs: seq<Rule>, i: nat)
    requires i < |rs|
    ensures WithRules(rs[..i + 1]) == AddRule(WithRules(rs[..i]), rs[i])
  {
    assert rs[..i + 1][..i] == rs[..i];
  }

  ghost function MemberKeys(ms: seq<Member>): set<MemberKey> { set i | 0 <= i < |ms| :: KeyOf(ms[i]) }

  // Here and below the result is what the map says if the comparator is an order on the keys involved.
  method AddMembers(rule: Rule, mmap: MemberMap) returns (result: MemberMap)
    ensures StrictOrder(MemberLess, KeySet(mmap) + MemberKeys(rule.members)) ==> result == WithMembers(mmap, rule.members)
  {
    result := mmap;
    ghost var keys := KeySet(mmap) + MemberKeys(rule.members);
    ghost var ordered := StrictOrder(MemberLess, keys);
    for i := 0 to |rule.members|
      invariant ordered ==> result == WithMembers(mmap, rule.members[..i]) && KeysIn(result, keys)
    {
      var member := rule.members[i];
      assert KeyOf(member) in MemberKeys(rule.members);
      if ordered {
        WithMembersNext(mmap, rule.members, i);
        PutKeys(result, KeyOf(member), MemberLess, keys);
        SubsetIsOrdered(MemberLess, keys, KeySet(result) + {KeyOf(member)});
      }
      var it := Find(result, KeyOf(member), MemberLess);
      if it != |result| {
        result := result[it := (result[it].0, result[it].1 | member.mask)];
      } else {
        result := Assign(result, KeyOf(member), member.mask, MemberLess);
      }
    }
    assert rule.members[..|rule.members|] == rule.members;
  }

  // Adding an entry adds its key.
  lemma PutKeys<V>(m: seq<(MemberKey, V)>, k: MemberKey, less: (MemberKey, MemberKey) -> bool, keys: set<MemberKey>)
    requires KeysIn(m, keys) && k in keys
    ensures KeySet(m) + {k} <= keys
    ensures forall v :: KeysIn(Put(m, k, v, less), keys)
  {
  }

  method AddRules(acl: Acl) returns (rmap: RuleMap)
    ensures AlignedSpace(SpaceOf(acl.rules)) ==> rmap == WithRules(acl.rules)
  {
    rmap := [];
    ghost var space := SpaceOf(acl.rules);
    ghost var aligned := AlignedSpace(space);
    for i := 0 to |acl.rules|
      invariant aligned ==> rmap == WithRules(acl.rules[..i])
    {
      var rule := acl.rules[i];
      if aligned {
        WithRulesNext(acl.rules, i);
        RulesOrderedSoFar(acl.rules, i, rmap);
      }
      var it := Find(rmap, KeyOfRule(rule), RuleLess);
      if aligned {
        var mmap := if it != |rmap| then rmap[it].1 else [];
        assert it != |rmap| ==> rmap[it] in rmap;
        MembersOrderedSoFar(mmap, rule.members, space[KeyOfRule(rule)]);
      }
      if it != |rmap| {
        var members := AddMembers(rule, rmap[it].1);
        rmap := rmap[it := (rmap[it].0, members)];
      } else {
        var members := AddMembers(rule, []);
        rmap := Assign(rmap, KeyOfRule(rule), members, RuleLess);
      }
    }
    assert acl.rules[..|acl.rules|] == acl.rules;
  }

  // On aligned keys the comparators are orders on what the maps hold and the next rule brings.
  lemma RulesOrderedSoFar(rs: seq<Rule>, i: nat, rmap: RuleMap)
    requires AlignedSpace(SpaceOf(rs)) && i < |rs| && rmap == WithRules(rs[..i])
    ensures StrictOrder(RuleLess, KeySet(rmap) + {KeyOfRule(rs[i])}) && GoodRules(rmap, SpaceOf(rs))
    ensures Found(rmap, KeyOfRule(rs[i]), RuleLess) ==> rmap[LowerBound(rmap, KeyOfRule(rs[i]), RuleLess)].0 == KeyOfRule(rs[i])
    ensures KeyOfRule(rs[i]) in SpaceOf(rs) && MembersIn(rs[i].members, SpaceOf(rs)[KeyOfRule(rs[i])])
  {
    var space, k := SpaceOf(rs), KeyOfRule(rs[i]);
    RulesInTheirSpace(rs);
    assert InSpace(rs[..i], space);
    WithRulesExact(rs[..i], space);
    RuleOrderExactly(space.Keys);
    SubsetIsOrdered(RuleLess, space.Keys, KeySet(rmap) + {k});
    ContentsAt(rmap, space, k);
  }

  lemma MembersOrderedSoFar(mmap: MemberMap, ms: seq<Member>, keys: set<MemberKey>)
    requires Aligned(keys) && KeysIn(mmap, keys) && MembersIn(ms, keys)
    ensures StrictOrder(MemberLess, KeySet(mmap) + MemberKeys(ms))
  {
    MemberOrderExactly(keys);
    SubsetIsOrdered(MemberLess, keys, KeySet(mmap) + MemberKeys(ms));
  }

  method SetRules(rmap: RuleMap, acl: Acl) returns (result: Acl)
    ensures result == acl.(rules := RulesOf(rmap))
  {
    var rules: seq<Rule> := [];
    for rit := 0 to |rmap|
      invariant rules == RulesOf(rmap)[..rit]
    {
      var members: seq<Member> := [];
      for mit := 0 to |rmap[rit].1|
        invariant members == MembersOf(rmap[rit].1)[..mit]
      {
        var entry := rmap[rit].1[mit];
        members := members + [Member(entry.0.name, entry.0.memberType, entry.1)];
      }
      assert MembersOf(rmap[rit].1)[..|rmap[rit].1|] == MembersOf(rmap[rit].1);
      rules := rules + [Rule(rmap[rit].0.interfaceName, rmap[rit].0.objPath, members)];
    }
    assert RulesOf(rmap)[..|rmap|] == RulesOf(rmap);
    result := acl.(rules := rules);
  }

  method NormalizePolicy(policy: Policy) returns (result: Policy)
    ensures result.version == policy.version && |result.acls| == |policy.acls|
    ensures forall i :: 0 <= i < |policy.acls| ==>
              && result.acls[i].peers == policy.acls[i].peers
              && (AlignedSpace(SpaceOf(policy.acls[i].rules)) ==> result.acls[i].rules == Normal(policy.acls[i].rules))
  {
    var acls: seq<Acl> := [];
    for i := 0 to |policy.acls|
      invariant |acls| == i
      invariant forall j :: 0 <= j < i ==>
                  && acls[j].peers == policy.acls[j].peers
                  && (AlignedSpace(SpaceOf(policy.acls[j].rules)) ==> acls[j].rules == Normal(policy.acls[j].rules))
    {
      var rmap := AddRules(policy.acls[i]);
      var acl := SetRules(rmap, policy.acls[i]);
      acls := acls + [acl];
    }
    result := policy.(acls := acls);
  }

  // ---------------------------------------------------------------- canonical form

  // Lists that say the same normalise to the same list.
  lemma NormalIsCanonical(rs: seq<Rule>, rs': seq<Rule>)
    requires AlignedSpace(SpaceOf(rs)) && Masks(rs) == Masks(rs')
    ensures Normal(rs) == Normal(rs')
  {
    RulesInTheirSpace(rs);
    RulesInTheirSpace(rs');
    AlignedIsCanonical(rs, rs', SpaceOf(rs));
  }

  lemma {:induction false} MasksOfMembers(mmap: MemberMap, keys: set<MemberKey>)
    requires StrictOrder(MemberLess, keys) && GoodMembers(mmap, keys)
    ensures AddMasks(map[], MembersOf(mmap)) == AsMap(mmap)
    decreases |mmap|
  {
    if mmap != [] {
      DropLast(mmap, MemberLess, keys);
      MasksOfMembers(mmap[..|mmap| - 1], keys);
      assert MembersOf(mmap)[..|mmap| - 1] == MembersOf(mmap[..|mmap| - 1]);
    }
  }

  // The last entry has the greatest key, so that it adds a key to the contents of the others.
  lemma LastOfContents(rmap: RuleMap, space: Space)
    requires AlignedSpace(space) && GoodRules(rmap, space) && rmap != []
    ensures var init, last := rmap[..|rmap| - 1], rmap[|rmap| - 1];
            GoodRules(init, space) && last.0 !in Contents(init) && Contents(rmap) == Contents(init)[last.0 := AsMap(last.1)]
  {
    RuleOrderExactly(space.Keys);
    DropLast(rmap, RuleLess, space.Keys);
  }

  lemma {:induction false} MasksOfRules(rmap: RuleMap, space: Space)
    requires AlignedSpace(space) && GoodRules(rmap, space)
    ensures Masks(RulesOf(rmap)) == Contents(rmap)
    decreases |rmap|
  {
    if rmap != [] {
      var init, last := rmap[..|rmap| - 1], rmap[|rmap| - 1];
      LastOfContents(rmap, space);
      MasksOfRules(init, space);
      assert RulesOf(rmap)[..|rmap| - 1] == RulesOf(init);
      MemberOrderExactly(space[last.0]);
      MasksOfMembers(last.1, space[last.0]);
    }
  }

  // Normalisation keeps every key and ORs the masks.
  lemma NormalKeepsMasks(rs: seq<Rule>)
    requires AlignedSpace(SpaceOf(rs))
    ensures Masks(Normal(rs)) == Masks(rs)
  {
    RulesInTheirSpace(rs);
    WithRulesExact(rs, SpaceOf(rs));
    MasksOfRules(WithRules(rs), SpaceOf(rs));
  }

  // In terms of rights: nothing is granted that was not, and nothing is lost.
  lemma NormalKeepsRights(rs: seq<Rule>, right: Manifests.Right)
    requires AlignedSpace(SpaceOf(rs))
    ensures Manifests.Grants(Normal(rs), right) <==> Manifests.Grants(rs, right)
  {
    NormalKeepsMasks(rs);
    MasksExact(rs, right);
    MasksExact(Normal(rs), right);
  }

  lemma NormalIsIdempotent(rs: seq<Rule>)
    requires AlignedSpace(SpaceOf(rs))
    ensures Normal(Normal(rs)) == Normal(rs)
  {
    NormalKeepsMasks(rs);
    NormalIsCanonical(rs, Normal(rs));
  }

  // Rules and members are strictly ascending, so that no key occurs twice.
  lemma NormalIsSorted(rs: seq<Rule>)
    requires AlignedSpace(SpaceOf(rs))
    ensures forall i, j :: 0 <= i < j < |Normal(rs)| ==>
              RuleLess(KeyOfRule(Normal(rs)[i]), KeyOfRule(Normal(rs)[j])) && KeyOfRule(Normal(rs)[i]) != KeyOfRule(Normal(rs)[j])
    ensures forall n, i, j :: 0 <= n < |Normal(rs)| && 0 <= i < j < |Normal(rs)[n].members| ==>
              var ms := Normal(rs)[n].members;
              MemberLess(KeyOf(ms[i]), KeyOf(ms[j])) && KeyOf(ms[i]) != KeyOf(ms[j])
  {
    var space := SpaceOf(rs);
    RulesInTheirSpace(rs);
    WithRulesExact(rs, space);
    RuleOrderExactly(space.Keys);
    var rmap := WithRules(rs);
    forall n, i, j | 0 <= n < |rmap| && 0 <= i < j < |rmap[n].1|
      ensures MemberLess(rmap[n].1[i].0, rmap[n].1[j].0) && rmap[n].1[i].0 != rmap[n].1[j].0
    {
      MemberOrderExactly(space[rmap[n].0]);
    }
  }

  ghost predicate NotAfter(a: string, b: string) { a == b || exists n: nat :: DiffersAt(a, b, n) }

  // In plain terms: neither the interface nor the path of a later rule comes earlier in a dictionary, and
  // one of them comes later.
  lemma NormalIsInDictionaryOrder(rs: seq<Rule>, i: nat, j: nat)
    requires AlignedSpace(SpaceOf(rs)) && i < j < |Normal(rs)|
    ensures var a, b := Normal(rs)[i], Normal(rs)[j];
            && NotAfter(a.interfaceName, b.interfaceName) && NotAfter(a.objPath, b.objPath)
            && (a.interfaceName != b.interfaceName || a.objPath != b.objPath)
  {
    var a, b := KeyOfRule(Normal(rs)[i]), KeyOfRule(Normal(rs)[j]);
    var rmap := WithRules(rs);
    NormalIsSorted(rs);
    RulesInTheirSpace(rs);
    WithRulesExact(rs, SpaceOf(rs));
    assert rmap[i].0 in SpaceOf(rs).Keys && rmap[j].0 in SpaceOf(rs).Keys;
    assert RuleLess(a, b);
    BeforeTotal(a.interfaceName, b.interfaceName);
    BeforeTotal(a.objPath, b.objPath);
    BeforeExactly(a.interfaceName, b.interfaceName);
    BeforeExactly(a.objPath, b.objPath);
  }

  // The same for the names and types of the members of a rule.
  lemma NormalMembersAreInDictionaryOrder(rs: seq<Rule>, r: nat, i: nat, j: nat)
    requires AlignedSpace(SpaceOf(rs)) && r < |Normal(rs)| && i < j < |Normal(rs)[r].members|
    ensures var a, b := Normal(rs)[r].members[i], Normal(rs)[r].members[j];
            NotAfter(a.name, b.name) && a.memberType <= b.memberType && (a.name != b.name || a.memberType != b.memberType)
  {
    var a, b := KeyOf(Normal(rs)[r].members[i]), KeyOf(Normal(rs)[r].members[j]);
    var entry := WithRules(rs)[r];
    NormalIsSorted(rs);
    RulesInTheirSpace(rs);
    WithRulesExact(rs, SpaceOf(rs));
    assert entry in WithRules(rs) && GoodMembers(entry.1, SpaceOf(rs)[entry.0]);
    assert entry.1[i].0 in SpaceOf(rs)[entry.0] && entry.1[j].0 in SpaceOf(rs)[entry.0];
    assert MemberLess(a, b);
    BeforeTotal(a.name, b.name);
    BeforeExactly(a.name, b.name);
  }

  // ---------------------------------------------------------------- exactly when

  ghost predicate CanonicalOn(space: Space) {
    forall rs, rs' :: InSpace(rs, space) && InSpace(rs', space) && Masks(rs) == Masks(rs') ==> Normal(rs) == Normal(rs')
  }

  // Two rules that are less than each other keep the order in which they came.
  lemma UnalignedRules(a: RuleKey, b: RuleKey) returns (rs: seq<Rule>, rs': seq<Rule>)
    requires RuleLess(a, b) && RuleLess(b, a) && a != b
    ensures Masks(rs) == Masks(rs') && Normal(rs) != Normal(rs')
    ensures forall i :: 0 <= i < |rs| ==> KeyOfRule(rs[i]) in {a, b} && rs[i].members == []
    ensures forall i :: 0 <= i < |rs'| ==> KeyOfRule(rs'[i]) in {a, b} && rs'[i].members == []
  {
    var ra, rb := Rule(a.interfaceName, a.objPath, []), Rule(b.interfaceName, b.objPath, []);
    rs, rs' := [ra, rb], [rb, ra];
    TwoRules(ra, rb);
    TwoRules(rb, ra);
  }

  lemma TwoRules(r: Rule, s: Rule)
    requires RuleLess(KeyOfRule(r), KeyOfRule(s)) && r.members == [] && s.members == [] && KeyOfRule(r) != KeyOfRule(s)
    ensures Masks([r, s]) == map[KeyOfRule(r) := map[], KeyOfRule(s) := map[]]
    ensures |Normal([r, s])| == 2 && Normal([r, s])[0] == r
  {
    assert [r, s][..1] == [r] && [r][..0] == [];
    assert WithRules([r]) == [(KeyOfRule(r), [])];
    assert Masks([r]) == map[KeyOfRule(r) := map[]];
  }

  lemma TwoMembers(k: RuleKey, m: Member, n: Member) returns (rs: seq<Rule>)
    requires MemberLess(KeyOf(m), KeyOf(n)) && KeyOf(m) != KeyOf(n)
    ensures |rs| == 1 && KeyOfRule(rs[0]) == k && rs[0].members == [m, n]
    ensures Masks(rs) == map[k := map[KeyOf(m) := m.mask, KeyOf(n) := n.mask]]
    ensures |Normal(rs)| == 1 && |Normal(rs)[0].members| == 2 && Normal(rs)[0].members[0] == m
  {
    rs := [Rule(k.interfaceName, k.objPath, [m, n])];
    assert rs[..0] == [];
    assert [m, n][..1] == [m] && [m][..0] == [];
    assert WithMembers([], [m]) == [(KeyOf(m), m.mask)];
    assert WithMembers([], [m, n]) == [(KeyOf(m), m.mask), (KeyOf(n), n.mask)];
    assert AddMasks(map[], [m]) == map[KeyOf(m) := m.mask];
    assert AddMasks(map[], [m, n]) == map[KeyOf(m) := m.mask, KeyOf(n) := n.mask];
    assert WithRules(rs) == [(k, WithMembers([], [m, n]))];
  }

  lemma UnalignedMembers(k: RuleKey, x: MemberKey, y: MemberKey) returns (rs: seq<Rule>, rs': seq<Rule>)
    requires MemberLess(x, y) && MemberLess(y, x) && x != y
    ensures Masks(rs) == Masks(rs') && Normal(rs) != Normal(rs')
    ensures |rs| == |rs'| == 1 && KeyOfRule(rs[0]) == KeyOfRule(rs'[0]) == k
    ensures MembersIn(rs[0].members, {x, y}) && MembersIn(rs'[0].members, {x, y})
  {
    var m, n := Member(x.name, x.memberType, 1), Member(y.name, y.memberType, 1);
    rs := TwoMembers(k, m, n);
    rs' := TwoMembers(k, n, m);
    assert map[x := m.mask, y := n.mask] == map[y := n.mask, x := m.mask];
  }

  lemma AlignedIsCanonical(rs: seq<Rule>, rs': seq<Rule>, space: Space)
    requires AlignedSpace(space) && InSpace(rs, space) && InSpace(rs', space) && Masks(rs) == Masks(rs')
    ensures Normal(rs) == Normal(rs')
  {
    WithRulesExact(rs, space);
    WithRulesExact(rs', space);
    ContentsDetermine(WithRules(rs), WithRules(rs'), space);
  }

  lemma UnalignedIsNot(space: Space) returns (rs: seq<Rule>, rs': seq<Rule>)
    requires !AlignedSpace(space)
    ensures InSpace(rs, space) && InSpace(rs', space) && Masks(rs) == Masks(rs') && Normal(rs) != Normal(rs')
  {
    if !AlignedRules(space.Keys) {
      var a, b :| a in space && b in space && Before(a.interfaceName, b.interfaceName) && Before(b.objPath, a.objPath);
      BeforeIrreflexive(a.interfaceName);
      rs, rs' := UnalignedRules(a, b);
    } else {
      var k :| k in space && !Aligned(space[k]);
      var x, y :| x in space[k] && y in space[k] && Before(x.name, y.name) && x.memberType > y.memberType;
      rs, rs' := UnalignedMembers(k, x, y);
    }
  }

  // The normal form is canonical exactly for key spaces in which the comparators are orders.
  lemma CanonicalExactly(space: Space)
    ensures CanonicalOn(space) <==> AlignedSpace(space)
  {
    if AlignedSpace(space) {
      forall rs, rs' | InSpace(rs, space) && InSpace(rs', space) && Masks(rs) == Masks(rs') ensures Normal(rs) == Normal(rs') {
        AlignedIsCanonical(rs, rs', space);
      }
    } else {
      var rs, rs' := UnalignedIsNot(space);
    }
  }
}

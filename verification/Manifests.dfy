// Manifests and their differences. A manifest grants action bits per (interface, path, member, type);
// how its rules are ordered, split or repeated does not matter.
module Manifests {
  import opened Base

  // ---------------------------------------------------------------- what rules mean

  datatype Right = Right(interfaceName: string, objPath: string, name: string, memberType: int, action: bv8)

  predicate IsAction(action: bv8) {
    action == 1 || action == 2 || action == 4 || action == 8 || action == 16 || action == 32 || action == 64 || action == 128
  }

  predicate SameMember(a: Member, b: Member) { a.name == b.name && a.memberType == b.memberType }

  predicate SameRule(a: Rule, b: Rule) { a.interfaceName == b.interfaceName && a.objPath == b.objPath }

  predicate MemberGrants(m: Member, right: Right) {
    m.name == right.name && m.memberType == right.memberType && m.mask & right.action != 0
  }

  ghost predicate MembersGrant(ms: seq<Member>, right: Right) {
    exists j :: 0 <= j < |ms| && MemberGrants(ms[j], right)
  }

  ghost predicate RuleGrants(r: Rule, right: Right) {
    r.interfaceName == right.interfaceName && r.objPath == right.objPath && MembersGrant(r.members, right)
  }

  ghost predicate Grants(rs: seq<Rule>, right: Right) {
    exists i :: 0 <= i < |rs| && RuleGrants(rs[i], right)
  }

  // ---------------------------------------------------------------- the difference as a function

  // A member without the actions that matching members have.
  function Cleared(m: Member, others: seq<Member>): Member
    decreases |others|
  {
    if others == [] then m
    else
      var last := others[|others| - 1];
      var m' := Cleared(m, others[..|others| - 1]);
      if SameMember(m', last) then m'.(mask := !last.mask & m'.mask) else m'
  }

  // The members that keep an action when matching members of one rule are taken away.
  function Subtract(ms: seq<Member>, others: seq<Member>): seq<Member>
    decreases |ms|
  {
    if ms == [] then []
    else
      var rest := Subtract(ms[..|ms| - 1], others);
      var m := Cleared(ms[|ms| - 1], others);
      if m.mask == 0 then rest else rest + [m]
  }

  // The members of a rule that remain after all rules with the same interface and path.
  function Remaining(l: Rule, rs: seq<Rule>): seq<Member>
    decreases |rs|
  {
    if rs == [] then l.members
    else
      var ms := Remaining(l, rs[..|rs| - 1]);
      if SameRule(l, rs[|rs| - 1]) then Subtract(ms, rs[|rs| - 1].members) else ms
  }

  function Diff(ls: seq<Rule>, rs: seq<Rule>): seq<Rule>
    decreases |ls|
  {
    if ls == [] then []
    else
      var rest := Diff(ls[..|ls| - 1], rs);
      var l := ls[|ls| - 1];
      var ms := Remaining(l, rs);
      if ms == [] then rest else rest + [l.(members := ms)]
  }

  // ---------------------------------------------------------------- the loops of Difference

  method ClearMatching(m: Member, rMembers: seq<Member>) returns (lm: Member)
    ensures lm == Cleared(m, rMembers)
  {
    lm := m;
    for rm := 0 to |rMembers|
      invariant lm == Cleared(m, rMembers[..rm])
    {
      assert rMembers[..rm + 1][..rm] == rMembers[..rm];
      if lm.name != rMembers[rm].name || lm.memberType != rMembers[rm].memberType {
        continue;
      }
      lm := lm.(mask := !rMembers[rm].mask & lm.mask);
    }
    assert rMembers[..|rMembers|] == rMembers;
  }

  // A vector whose first elements are dealt with: erasing or replacing the element at the cursor.
  lemma AtCursor<T>(done: seq<T>, rest: seq<T>, x: T)
    requires rest != []
    ensures (done + rest)[|done|] == rest[0]
    ensures (done + rest)[..|done|] + (done + rest)[|done| + 1..] == done + rest[1..]
    ensures (done + rest)[|done| := x] == (done + [x]) + rest[1..]
  {
  }

  // Rewrites the masks and erases members that lose all actions.
  method EraseMatching(members: seq<Member>, rMembers: seq<Member>) returns (lMembers: seq<Member>)
    ensures lMembers == Subtract(members, rMembers)
  {
    lMembers := members;
    var lm := 0;
    ghost var seen := 0;
    while lm < |lMembers|
      invariant 0 <= lm <= |lMembers| && seen <= |members|
      invariant lMembers == Subtract(members[..seen], rMembers) + members[seen..]
      invariant lm == |Subtract(members[..seen], rMembers)|
      decreases |members| - seen
    {
      assert members[..seen + 1][..seen] == members[..seen];
      var m := ClearMatching(lMembers[lm], rMembers);
      AtCursor(Subtract(members[..seen], rMembers), members[seen..], m);
      if m.mask == 0 {
        lMembers := lMembers[..lm] + lMembers[lm + 1..];
      } else {
        lMembers := lMembers[lm := m];
        lm := lm + 1;
      }
      seen := seen + 1;
    }
    assert members[..seen] == members;
  }

  method EraseRule(l: Rule, rRules: seq<Rule>) returns (lMembers: seq<Member>)
    ensures lMembers == Remaining(l, rRules)
  {
    lMembers := l.members;
    for rr := 0 to |rRules|
      invariant lMembers == Remaining(l, rRules[..rr])
    {
      assert rRules[..rr + 1][..rr] == rRules[..rr];
      if l.interfaceName != rRules[rr].interfaceName || l.objPath != rRules[rr].objPath {
        continue;
      }
      lMembers := EraseMatching(lMembers, rRules[rr].members);
    }
    assert rRules[..|rRules|] == rRules;
  }

  // Erases the rules that keep no member.
  method EraseRules(ls: seq<Rule>, rRules: seq<Rule>) returns (lRules: seq<Rule>)
    ensures lRules == Diff(ls, rRules)
  {
    lRules := ls;
    var lr := 0;
    ghost var seen := 0;
    while lr < |lRules|
      invariant 0 <= lr <= |lRules| && seen <= |ls|
      invariant lRules == Diff(ls[..seen], rRules) + ls[seen..]
      invariant lr == |Diff(ls[..seen], rRules)|
      decreases |ls| - seen
    {
      assert ls[..seen + 1][..seen] == ls[..seen];
      var lMembers := EraseRule(lRules[lr], rRules);
      AtCursor(Diff(ls[..seen], rRules), ls[seen..], lRules[lr].(members := lMembers));
      if |lMembers| == 0 {
        lRules := lRules[..lr] + lRules[lr + 1..];
      } else {
        lRules := lRules[lr := lRules[lr].(members := lMembers)];
        lr := lr + 1;
      }
      seen := seen + 1;
    }
    assert ls[..seen] == ls;
  }

  class Manifest {
    // The rules of the only ACL, if there is one.
    var rules: Option<seq<Rule>>

    constructor ()
      ensures rules == None
    {
      rules := None;
    }

    function Rules(): seq<Rule>
      reads this
    {
      if rules.Some? then rules.value else []
    }

    method GetRules() returns (status: Status, manifestRules: seq<Rule>)
      ensures status == (if Rules() == [] then ER_END_OF_DATA else ER_OK) && manifestRules == Rules()
    {
      if rules.None? || |rules.value| == 0 {
        return ER_END_OF_DATA, [];
      }
      return ER_OK, rules.value;
    }

    // `exported` tells whether the rules could be marshalled; they are set in any case.
    method SetFromRules(manifestRules: seq<Rule>, exported: bool) returns (status: Status)
      modifies this
      ensures manifestRules == [] ==> status == ER_BAD_ARG_2 && unchanged(this)
      ensures manifestRules != [] ==> rules == Some(manifestRules) && status == if exported then ER_OK else ER_FAIL
    {
      if |manifestRules| == 0 {
        return ER_BAD_ARG_2;
      }
      rules := Some(manifestRules);
      status := if exported then ER_OK else ER_FAIL;
    }

    // Leaves `result` alone if there is nothing to compare or no difference.
    method Difference(rhs: Manifest, result: Manifest, exported: bool) returns (status: Status)
      modifies result
      ensures old(Rules()) == [] || old(rhs.Rules()) == [] ==> status == ER_END_OF_DATA && unchanged(result)
      ensures old(Rules()) != [] && old(rhs.Rules()) != [] ==>
                var d := Diff(old(Rules()), old(rhs.Rules()));
                && (d == [] ==> status == ER_OK && unchanged(result))
                && (d != [] ==> result.rules == Some(d) && status == if exported then ER_OK else ER_FAIL)
    {
      var lRules, rRules;
      status, lRules := GetRules();
      if status != ER_OK {
        return;
      }
      status, rRules := rhs.GetRules();
      if status != ER_OK {
        return;
      }
      lRules := EraseRules(lRules, rRules);
      if |lRules| > 0 {
        status := result.SetFromRules(lRules, exported);
      }
    }
  }

  // ---------------------------------------------------------------- the difference is exact

  lemma ClearBit(l: bv8, r: bv8, action: bv8)
    requires IsAction(action)
    ensures (!r & l) & action != 0 <==> l & action != 0 && r & action == 0
  {
  }

  lemma SomeAction(mask: bv8) returns (action: bv8)
    requires mask != 0
    ensures IsAction(action) && mask & action != 0
  {
    action := if mask & 1 != 0 then 1 else if mask & 2 != 0 then 2 else if mask & 4 != 0 then 4 else if mask & 8 != 0 then 8
              else if mask & 16 != 0 then 16 else if mask & 32 != 0 then 32 else if mask & 64 != 0 then 64 else 128;
  }

  lemma MembersGrantSplit(ms: seq<Member>, right: Right)
    requires ms != []
    ensures MembersGrant(ms, right) <==>
            MembersGrant(ms[..|ms| - 1], right) || MemberGrants(ms[|ms| - 1], right)
  {
    var init := ms[..|ms| - 1];
    if MembersGrant(init, right) {
      var j :| 0 <= j < |init| && MemberGrants(init[j], right);
      assert MemberGrants(ms[j], right);
    }
    if MembersGrant(ms, right) {
      var j :| 0 <= j < |ms| && MemberGrants(ms[j], right);
      assert j < |init| ==> MemberGrants(init[j], right);
    }
  }

  lemma GrantsSplit(rs: seq<Rule>, right: Right)
    requires rs != []
    ensures Grants(rs, right) <==> Grants(rs[..|rs| - 1], right) || RuleGrants(rs[|rs| - 1], right)
  {
    var init := rs[..|rs| - 1];
    if Grants(init, right) {
      var i :| 0 <= i < |init| && RuleGrants(init[i], right);
      assert RuleGrants(rs[i], right);
    }
    if Grants(rs, right) {
      var i :| 0 <= i < |rs| && RuleGrants(rs[i], right);
      assert i < |init| ==> RuleGrants(init[i], right);
    }
  }

  lemma {:induction false} ClearedExact(m: Member, others: seq<Member>, right: Right)
    requires IsAction(right.action)
    ensures SameMember(Cleared(m, others), m)
    ensures MemberGrants(Cleared(m, others), right) <==> MemberGrants(m, right) && !MembersGrant(others, right)
    decreases |others|
  {
    if others != [] {
      var init, last := others[..|others| - 1], others[|others| - 1];
      ClearedExact(m, init, right);
      MembersGrantSplit(others, right);
      ClearBit(Cleared(m, init).mask, last.mask, right.action);
    }
  }

  lemma {:induction false} SubtractExact(ms: seq<Member>, others: seq<Member>, right: Right)
    requires IsAction(right.action)
    ensures MembersGrant(Subtract(ms, others), right) <==> MembersGrant(ms, right) && !MembersGrant(others, right)
    decreases |ms|
  {
    if ms != [] {
      var init, last := ms[..|ms| - 1], ms[|ms| - 1];
      SubtractExact(init, others, right);
      ClearedExact(last, others, right);
      MembersGrantSplit(ms, right);
      var rest, m := Subtract(init, others), Cleared(last, others);
      if m.mask != 0 {
        MembersGrantSplit(rest + [m], right);
        assert (rest + [m])[..|rest|] == rest;
      }
    }
  }

  lemma {:induction false} RemainingExact(l: Rule, rs: seq<Rule>, right: Right)
    requires IsAction(right.action)
    ensures RuleGrants(l.(members := Remaining(l, rs)), right) <==> RuleGrants(l, right) && !Grants(rs, right)
    decreases |rs|
  {
    if rs == [] {
      assert l.(members := Remaining(l, rs)) == l;
    } else {
      RemainingExact(l, rs[..|rs| - 1], right);
      GrantsSplit(rs, right);
      SubtractExact(Remaining(l, rs[..|rs| - 1]), rs[|rs| - 1].members, right);
    }
  }

  // Difference grants exactly what the left-hand side grants and the right-hand side does not.
  lemma {:induction false} DiffExact(ls: seq<Rule>, rs: seq<Rule>, right: Right)
    requires IsAction(right.action)
    ensures Grants(Diff(ls, rs), right) <==> Grants(ls, right) && !Grants(rs, right)
    decreases |ls|
  {
    if ls != [] {
      var init, last := ls[..|ls| - 1], ls[|ls| - 1];
      DiffExact(init, rs, right);
      RemainingExact(last, rs, right);
      GrantsSplit(ls, right);
      var rest, r := Diff(init, rs), last.(members := Remaining(last, rs));
      if r.members != [] {
        GrantsSplit(rest + [r], right);
        assert (rest + [r])[..|rest|] == rest;
      }
    }
  }

  // Order, splitting and repetition of rules do not influence what the difference grants.
  lemma DiffDependsOnMeaning(ls: seq<Rule>, ls': seq<Rule>, rs: seq<Rule>, rs': seq<Rule>, right: Right)
    requires IsAction(right.action)
    requires Grants(ls, right) <==> Grants(ls', right)
    requires Grants(rs, right) <==> Grants(rs', right)
    ensures Grants(Diff(ls, rs), right) <==> Grants(Diff(ls', rs'), right)
  {
    DiffExact(ls, rs, right);
    DiffExact(ls', rs', right);
  }

  lemma {:induction false} DiffRulesHaveMembers(ls: seq<Rule>, rs: seq<Rule>)
    ensures forall i :: 0 <= i < |Diff(ls, rs)| ==> Diff(ls, rs)[i].members != []
    decreases |ls|
  {
    if ls != [] {
      DiffRulesHaveMembers(ls[..|ls| - 1], rs);
    }
  }

  // ---------------------------------------------------------------- what the difference lists

  predicate Ascending(from: seq<nat>) { forall j, k :: 0 <= j < k < |from| ==> from[j] < from[k] }

  // The right that an action of a member of rule l stands for.
  function RightOf(l: Rule, m: Member, action: bv8): Right {
    Right(l.interfaceName, l.objPath, m.name, m.memberType, action)
  }

  // Member m of the difference stems from m0 and has lost exactly the actions that the right-hand side grants.
  ghost predicate Keeps(m: Member, m0: Member, l: Rule, rs: seq<Rule>) {
    && SameMember(m, m0)
    && forall action: bv8 :: IsAction(action) ==>
         (m.mask & action != 0 <==> m0.mask & action != 0 && !Grants(rs, RightOf(l, m0, action)))
  }

  // Nothing is left of member m0.
  ghost predicate Loses(m0: Member, l: Rule, rs: seq<Rule>) {
    forall action: bv8 :: IsAction(action) && m0.mask & action != 0 ==> Grants(rs, RightOf(l, m0, action))
  }

  lemma {:induction false} SubtractKeepsOrder(ms: seq<Member>, others: seq<Member>) returns (from: seq<nat>)
    ensures |from| == |Subtract(ms, others)| && Ascending(from)
    ensures forall k :: 0 <= k < |from| ==> from[k] < |ms| && Subtract(ms, others)[k] == Cleared(ms[from[k]], others)
    ensures forall i :: 0 <= i < |ms| && i !in from ==> Cleared(ms[i], others).mask == 0
    decreases |ms|
  {
    from := [];
    if ms != [] {
      from := SubtractKeepsOrder(ms[..|ms| - 1], others);
      if Cleared(ms[|ms| - 1], others).mask != 0 {
        from := from + [|ms| - 1];
      }
    }
  }

  lemma ClearedKeeps(m: Member, m0: Member, l: Rule, rs: seq<Rule>)
    requires rs != [] && SameRule(l, rs[|rs| - 1]) && Keeps(m, m0, l, rs[..|rs| - 1])
    ensures Keeps(Cleared(m, rs[|rs| - 1].members), m0, l, rs)
  {
    var m' := Cleared(m, rs[|rs| - 1].members);
    ClearedExact(m, rs[|rs| - 1].members, RightOf(l, m, 1));
    forall action: bv8 | IsAction(action)
      ensures m'.mask & action != 0 <==> m0.mask & action != 0 && !Grants(rs, RightOf(l, m0, action))
    {
      ClearedExact(m, rs[|rs| - 1].members, RightOf(l, m0, action));
      GrantsSplit(rs, RightOf(l, m0, action));
    }
  }

  lemma LosesMore(m0: Member, l: Rule, rs: seq<Rule>)
    requires rs != [] && Loses(m0, l, rs[..|rs| - 1])
    ensures Loses(m0, l, rs)
  {
    forall action: bv8 | IsAction(action) && m0.mask & action != 0 ensures Grants(rs, RightOf(l, m0, action)) {
      GrantsSplit(rs, RightOf(l, m0, action));
    }
  }

  lemma UnmatchedKeeps(m: Member, m0: Member, l: Rule, rs: seq<Rule>)
    requires rs != [] && !SameRule(l, rs[|rs| - 1]) && Keeps(m, m0, l, rs[..|rs| - 1])
    ensures Keeps(m, m0, l, rs)
  {
    forall action: bv8 | IsAction(action)
      ensures m.mask & action != 0 <==> m0.mask & action != 0 && !Grants(rs, RightOf(l, m0, action))
    {
      GrantsSplit(rs, RightOf(l, m0, action));
    }
  }

  // The members ms of the difference stem from the members of l at the positions `from`, in their order and
  // none repeated; of the members at other positions nothing is left.
  ghost predicate StemsFrom(ms: seq<Member>, from: seq<nat>, l: Rule, rs: seq<Rule>) {
    && |from| == |ms| && Ascending(from)
    && (forall k :: 0 <= k < |from| ==> from[k] < |l.members| && Keeps(ms[k], l.members[from[k]], l, rs))
    && (forall i :: 0 <= i < |l.members| && i !in from ==> Loses(l.members[i], l, rs))
  }

  lemma MatchedStemsFrom(l: Rule, rs: seq<Rule>, ms: seq<Member>, before: seq<nat>) returns (from: seq<nat>)
    requires rs != [] && SameRule(l, rs[|rs| - 1]) && StemsFrom(ms, before, l, rs[..|rs| - 1])
    ensures StemsFrom(Subtract(ms, rs[|rs| - 1].members), from, l, rs)
  {
    var others := rs[|rs| - 1].members;
    var kept := SubtractKeepsOrder(ms, others);
    from := seq(|kept|, k requires 0 <= k < |kept| => before[kept[k]]);
    forall k | 0 <= k < |from| ensures Keeps(Subtract(ms, others)[k], l.members[from[k]], l, rs) {
      ClearedKeeps(ms[kept[k]], l.members[before[kept[k]]], l, rs);
    }
    forall i | 0 <= i < |l.members| && i !in from ensures Loses(l.members[i], l, rs) {
      if i in before {
        var b: nat :| b < |before| && before[b] == i;
        assert b !in kept;
        ClearedKeeps(ms[b], l.members[i], l, rs);
      } else {
        LosesMore(l.members[i], l, rs);
      }
    }
  }

  lemma UnmatchedStemsFrom(l: Rule, rs: seq<Rule>, ms: seq<Member>, from: seq<nat>)
    requires rs != [] && !SameRule(l, rs[|rs| - 1]) && StemsFrom(ms, from, l, rs[..|rs| - 1])
    ensures StemsFrom(ms, from, l, rs)
  {
    forall k | 0 <= k < |from| ensures Keeps(ms[k], l.members[from[k]], l, rs) {
      UnmatchedKeeps(ms[k], l.members[from[k]], l, rs);
    }
    forall i | 0 <= i < |l.members| && i !in from ensures Loses(l.members[i], l, rs) {
      LosesMore(l.members[i], l, rs);
    }
  }

  // The members of a rule that remain are members of that rule, in their order and none repeated, without
  // exactly the actions that the right-hand side grants.
  lemma {:induction false} RemainingKeepsOrder(l: Rule, rs: seq<Rule>) returns (from: seq<nat>)
    ensures StemsFrom(Remaining(l, rs), from, l, rs)
    decreases |rs|
  {
    if rs == [] {
      from := seq(|l.members|, i requires 0 <= i => i);
      assert forall i :: 0 <= i < |l.members| ==> from[i] == i;
    } else {
      from := RemainingKeepsOrder(l, rs[..|rs| - 1]);
      if SameRule(l, rs[|rs| - 1]) {
        from := MatchedStemsFrom(l, rs, Remaining(l, rs[..|rs| - 1]), from);
      } else {
        UnmatchedStemsFrom(l, rs, Remaining(l, rs), from);
      }
    }
  }

  // The rules of the difference are rules of the left-hand side, in their order and none repeated; exactly
  // those are listed that keep a member.
  lemma {:induction false} DiffKeepsOrder(ls: seq<Rule>, rs: seq<Rule>) returns (from: seq<nat>)
    ensures |from| == |Diff(ls, rs)| && Ascending(from)
    ensures forall k :: 0 <= k < |from| ==>
              from[k] < |ls| && Diff(ls, rs)[k] == ls[from[k]].(members := Remaining(ls[from[k]], rs))
    ensures forall i :: 0 <= i < |ls| ==> (i in from <==> Remaining(ls[i], rs) != [])
    decreases |ls|
  {
    from := [];
    if ls != [] {
      from := DiffKeepsOrder(ls[..|ls| - 1], rs);
      if Remaining(ls[|ls| - 1], rs) != [] {
        from := from + [|ls| - 1];
      }
    }
  }

  // ---------------------------------------------------------------- when nothing is left

  ghost predicate Covered(ls: seq<Rule>, rs: seq<Rule>) {
    forall right: Right :: IsAction(right.action) && Grants(ls, right) ==> Grants(rs, right)
  }

  ghost predicate Matched(l: Rule, rs: seq<Rule>) { exists k :: 0 <= k < |rs| && SameRule(l, rs[k]) }

  // A member without any action is erased only when some rule matches its own.
  ghost predicate IdleMembersMatched(ls: seq<Rule>, rs: seq<Rule>) {
    forall i, j :: 0 <= i < |ls| && 0 <= j < |ls[i].members| && ls[i].members[j].mask == 0 ==> Matched(ls[i], rs)
  }

  lemma {:induction false} SubtractLeavesActions(ms: seq<Member>, others: seq<Member>)
    ensures forall j :: 0 <= j < |Subtract(ms, others)| ==> Subtract(ms, others)[j].mask != 0
    decreases |ms|
  {
    if ms != [] {
      SubtractLeavesActions(ms[..|ms| - 1], others);
    }
  }

  lemma {:induction false} RemainingUnmatched(l: Rule, rs: seq<Rule>)
    ensures !Matched(l, rs) ==> Remaining(l, rs) == l.members
    ensures Matched(l, rs) ==> forall j :: 0 <= j < |Remaining(l, rs)| ==> Remaining(l, rs)[j].mask != 0
    decreases |rs|
  {
    if rs != [] {
      var init, last := rs[..|rs| - 1], rs[|rs| - 1];
      RemainingUnmatched(l, init);
      SubtractLeavesActions(Remaining(l, init), last.members);
      if Matched(l, rs) && !SameRule(l, last) {
        var k :| 0 <= k < |rs| && SameRule(l, rs[k]);
        assert SameRule(l, init[k]);
      }
      if Matched(l, init) {
        var k :| 0 <= k < |init| && SameRule(l, init[k]);
        assert SameRule(l, rs[k]);
      }
      assert SameRule(l, last) ==> SameRule(l, rs[|rs| - 1]);
    }
  }

  lemma {:induction false} DiffKeeps(ls: seq<Rule>, rs: seq<Rule>, i: nat)
    requires i < |ls| && Remaining(ls[i], rs) != []
    ensures Diff(ls, rs) != []
    decreases |ls|
  {
    if i < |ls| - 1 {
      DiffKeeps(ls[..|ls| - 1], rs, i);
    }
  }

  lemma {:induction false} DiffFrom(ls: seq<Rule>, rs: seq<Rule>) returns (i: nat)
    requires Diff(ls, rs) != []
    ensures i < |ls| && Remaining(ls[i], rs) != []
    decreases |ls|
  {
    if Remaining(ls[|ls| - 1], rs) != [] {
      i := |ls| - 1;
    } else {
      i := DiffFrom(ls[..|ls| - 1], rs);
    }
  }

  // The difference is empty exactly if the right-hand side covers the left-hand one and no member
  // without actions stands in an unmatched rule.
  lemma DiffEmptyExactly(ls: seq<Rule>, rs: seq<Rule>)
    ensures Diff(ls, rs) == [] <==> Covered(ls, rs) && IdleMembersMatched(ls, rs)
  {
    if Diff(ls, rs) == [] {
      forall right: Right | IsAction(right.action) && Grants(ls, right) ensures Grants(rs, right) {
        DiffExact(ls, rs, right);
      }
      forall i, j | 0 <= i < |ls| && 0 <= j < |ls[i].members| && ls[i].members[j].mask == 0 ensures Matched(ls[i], rs) {
        RemainingUnmatched(ls[i], rs);
        if !Matched(ls[i], rs) {
          DiffKeeps(ls, rs, i);
        }
      }
    } else if Covered(ls, rs) {
      var i := DiffFrom(ls, rs);
      var l, ms := ls[i], Remaining(ls[i], rs);
      RemainingUnmatched(l, rs);
      if ms[0].mask == 0 {
        assert l.members[0].mask == 0 && !Matched(ls[i], rs);
      } else {
        var action := SomeAction(ms[0].mask);
        var right := Right(l.interfaceName, l.objPath, ms[0].name, ms[0].memberType, action);
        assert MemberGrants(ms[0], right);
        assert RuleGrants(l.(members := ms), right);
        RemainingExact(l, rs, right);
        assert Grants(ls, right);
      }
    }
  }

  // ---------------------------------------------------------------- manifest updates

  // What Difference puts into an empty result: nothing at all if one of the manifests has no rules.
  function Shown(ls: seq<Rule>, rs: seq<Rule>): seq<Rule> { if ls == [] || rs == [] then [] else Diff(ls, rs) }

  class ManifestUpdate {
    const oldManifest: Manifest
    const newManifest: Manifest
    const additionalRules: Manifest
    const removedRules: Manifest

    constructor (oldRules: Manifest, newRules: Manifest, exported: bool)
      ensures oldManifest == oldRules && newManifest == newRules
      ensures fresh(additionalRules) && fresh(removedRules) && additionalRules != removedRules
      ensures additionalRules.Rules() == Shown(newRules.Rules(), oldRules.Rules())
      ensures removedRules.Rules() == Shown(oldRules.Rules(), newRules.Rules())
    {
      oldManifest := oldRules;
      newManifest := newRules;
      additionalRules := new Manifest();
      removedRules := new Manifest();
      new;
      var ignored := newManifest.Difference(oldManifest, additionalRules, exported);
      ignored := oldManifest.Difference(newManifest, removedRules, exported);
    }
  }

  // What an administrator is shown: the new manifest is the old one without the removed rights and with
  // the additional ones, and neither list repeats what both manifests grant.
  lemma UpdateReconstructs(o: seq<Rule>, n: seq<Rule>, right: Right)
    requires o != [] && n != [] && IsAction(right.action)
    ensures var additional, removed := Diff(n, o), Diff(o, n);
            && (Grants(n, right) <==> (Grants(o, right) && !Grants(removed, right)) || Grants(additional, right))
            && !(Grants(additional, right) && Grants(o, right))
            && !(Grants(removed, right) && Grants(n, right))
  {
    DiffExact(n, o, right);
    DiffExact(o, n, right);
  }

  ghost predicate Reconstructed(o: seq<Rule>, n: seq<Rule>) {
    forall right: Right :: IsAction(right.action) ==>
      (Grants(n, right) <==> (Grants(o, right) && !Grants(Shown(o, n), right)) || Grants(Shown(n, o), right))
  }

  ghost predicate Idle(rs: seq<Rule>) {
    forall i, j :: 0 <= i < |rs| && 0 <= j < |rs[i].members| ==> rs[i].members[j].mask == 0
  }

  lemma IdleExactly(rs: seq<Rule>)
    ensures Idle(rs) <==> forall right: Right :: IsAction(right.action) ==> !Grants(rs, right)
  {
    if !Idle(rs) {
      var i, j :| 0 <= i < |rs| && 0 <= j < |rs[i].members| && rs[i].members[j].mask != 0;
      var m := rs[i].members[j];
      var action := SomeAction(m.mask);
      var right := Right(rs[i].interfaceName, rs[i].objPath, m.name, m.memberType, action);
      assert MemberGrants(m, right) && RuleGrants(rs[i], right) && Grants(rs, right);
    }
  }

  // The update tells the whole change exactly if both manifests have rules, or neither grants anything.
  lemma UpdateReconstructsExactly(o: seq<Rule>, n: seq<Rule>)
    ensures Reconstructed(o, n) <==> (o != [] && n != []) || Idle(o + n)
  {
    if o != [] && n != [] {
      forall right: Right | IsAction(right.action)
        ensures Grants(n, right) <==> (Grants(o, right) && !Grants(Shown(o, n), right)) || Grants(Shown(n, o), right)
      {
        UpdateReconstructs(o, n, right);
      }
    } else {
      assert o + n == if o == [] then n else o;
      IdleExactly(o + n);
    }
  }

  // No additional rules are listed exactly if a manifest has no rules, or the old one covers the new one
  // and no member without actions stands in an unmatched rule.
  lemma ShownEmptyExactly(ls: seq<Rule>, rs: seq<Rule>)
    ensures Shown(ls, rs) == [] <==> ls == [] || rs == [] || (Covered(ls, rs) && IdleMembersMatched(ls, rs))
  {
    DiffEmptyExactly(ls, rs);
  }

  // Between manifests with rules, the update lists no additional rules exactly if the old manifest covers
  // the new one.
  lemma NothingToApprove(o: seq<Rule>, n: seq<Rule>)
    requires o != [] && n != []
    requires forall i, j :: 0 <= i < |n| && 0 <= j < |n[i].members| ==> n[i].members[j].mask != 0
    ensures Shown(n, o) == [] <==> Covered(n, o)
  {
    ShownEmptyExactly(n, o);
  }
}

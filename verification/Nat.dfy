// Normalization of the source NAT rules: internal/normalize/nat.go.
module Nat {
  import opened Wrappers
  import opened RenderData
  import Sorting
  import Validate

  datatype NatError = BadRule(index: nat) | DuplicateRule(ruleId: int)

  function Token(value: Option<string>, allowSlash: bool): Option<string> {
    if value.Some? && Validate.IsToken(value.value, allowSlash) then value else None
  }

  // normalizeNATRule; None stands for all of its errors.
  function NormalizeRule(raw: RawNatRule): Option<NatRule> {
    match (raw.ruleId, Token(raw.outbound, false), Token(raw.source, true), Token(raw.translation, true))
    case (Number(id), Some(outbound), Some(source), Some(translation)) =>
      Some(NatRule(id, outbound, source, translation))
    case _ => None
  }

  ghost predicate AllValid(entries: seq<RawNatRule>) {
    forall e | e in entries :: NormalizeRule(e).Some?
  }

  function Rules(entries: seq<RawNatRule>): seq<NatRule>
    requires AllValid(entries)
  {
    seq(|entries|, i requires 0 <= i < |entries| => assert entries[i] in entries; NormalizeRule(entries[i]).value)
  }

  function Ids(rules: seq<NatRule>): seq<int> {
    seq(|rules|, i requires 0 <= i < |rules| => rules[i].ruleId)
  }

  // Every rule is valid and no two have the same number.
  ghost predicate Acceptable(entries: seq<RawNatRule>) {
    AllValid(entries) && Sorting.Distinct(Ids(Rules(entries)))
  }

  predicate IdLess(a: NatRule, b: NatRule) {
    a.ruleId < b.ruleId
  }

  ghost predicate Outcome(r: Result<seq<NatRule>, NatError>, entries: seq<RawNatRule>) {
    match r
    case Ok(rules) =>
      Acceptable(entries) && multiset(rules) == multiset(Rules(entries)) && Sorting.Sorted(IdLess, rules)
    case Err(BadRule(i)) =>
      i < |entries| && Acceptable(entries[..i]) && NormalizeRule(entries[i]).None?
    case Err(DuplicateRule(id)) =>
      exists i: nat :: i < |entries| && Acceptable(entries[..i]) && Repeats(entries, i, id)
  }

  // The number of the i-th rule has been used before.
  ghost predicate Repeats(entries: seq<RawNatRule>, i: nat, id: int)
    requires i < |entries| && Acceptable(entries[..i])
  {
    var rule := NormalizeRule(entries[i]);
    rule.Some? && rule.value.ruleId == id && id in Ids(Rules(entries[..i]))
  }

  lemma RulesGrow(entries: seq<RawNatRule>, i: nat)
    requires i < |entries| && AllValid(entries[..i]) && NormalizeRule(entries[i]).Some?
    ensures AllValid(entries[..i + 1])
    ensures Rules(entries[..i + 1]) == Rules(entries[..i]) + [NormalizeRule(entries[i]).value]
    ensures Ids(Rules(entries[..i + 1])) == Ids(Rules(entries[..i])) + [NormalizeRule(entries[i]).value.ruleId]
  {
    assert entries[..i + 1] == entries[..i] + [entries[i]];
  }

  // normalizeNAT
  method NormalizeNat(entries: seq<RawNatRule>) returns (r: Result<seq<NatRule>, NatError>)
    ensures Outcome(r, entries)
  {
    var rules: seq<NatRule> := [];
    var seen: set<int> := {};
    for i := 0 to |entries|
      invariant Acceptable(entries[..i]) && rules == Rules(entries[..i])
      invariant forall id :: id in seen <==> id in Ids(rules)
    {
      var rule := NormalizeRule(entries[i]);
      if rule.None? {
        return Err(BadRule(i));
      }
      if rule.value.ruleId in seen {
        assert Repeats(entries, i, rule.value.ruleId);
        return Err(DuplicateRule(rule.value.ruleId));
      }
      RulesGrow(entries, i);
      seen := seen + {rule.value.ruleId};
      rules := rules + [rule.value];
    }
    assert entries[..|entries|] == entries;
    rules := Sorting.Sort(rules, IdLess);
    return Ok(rules);
  }

  // ---- canonical order ----

  // It succeeds exactly for acceptable rules.
  lemma SucceedsExactly(r: Result<seq<NatRule>, NatError>, entries: seq<RawNatRule>)
    requires Outcome(r, entries)
    ensures r.Ok? <==> Acceptable(entries)
  {
    if Acceptable(entries) {
      forall i, id | 0 <= i < |entries| && Acceptable(entries[..i])
        ensures NormalizeRule(entries[i]).Some? && !Repeats(entries, i, id)
      {
        NeitherBadNorRepeated(entries, i, id);
      }
    }
  }

  lemma NeitherBadNorRepeated(entries: seq<RawNatRule>, i: nat, id: int)
    requires Acceptable(entries) && i < |entries| && Acceptable(entries[..i])
    ensures NormalizeRule(entries[i]).Some? && !Repeats(entries, i, id)
  {
    assert entries[i] in entries;
    var ids, front := Ids(Rules(entries)), Ids(Rules(entries[..i]));
    assert ids[i] == NormalizeRule(entries[i]).value.ruleId;
    assert forall k | 0 <= k < i :: front[k] == ids[k] != ids[i];
  }

  // An accepted list has strictly ascending numbers, and is determined by its
  // elements.
  lemma Canonical(a: seq<NatRule>, b: seq<NatRule>)
    requires Sorting.Distinct(Ids(a)) && multiset(a) == multiset(b)
    requires Sorting.Sorted(IdLess, a) && Sorting.Sorted(IdLess, b)
    ensures a == b
    ensures forall i, j | 0 <= i < j < |a| :: a[i].ruleId < a[j].ruleId
  {
    forall i, j | 0 <= i < j < |a|
      ensures a[i].ruleId < a[j].ruleId
    {
      assert Ids(a)[i] != Ids(a)[j];
    }
    Sorting.SortUnique(IdLess, a, b);
  }

  function Without(s: seq<RawNatRule>, k: nat): seq<RawNatRule>
    requires k < |s|
  {
    s[..k] + s[k + 1..]
  }

  lemma RuleRemoved(s: seq<RawNatRule>, k: nat)
    requires AllValid(s) && k < |s|
    ensures AllValid(Without(s, k)) && s[k] in s && multiset(Without(s, k)) == multiset(s) - multiset{s[k]}
    ensures multiset(Rules(s)) == multiset(Rules(Without(s, k))) + multiset{NormalizeRule(s[k]).value}
  {
    assert s == s[..k] + [s[k]] + s[k + 1..];
    var rules := Rules(s);
    assert rules == rules[..k] + [rules[k]] + rules[k + 1..];
    assert Rules(Without(s, k)) == rules[..k] + rules[k + 1..];
  }

  lemma {:induction false} RulesMultiset(a: seq<RawNatRule>, b: seq<RawNatRule>)
    requires AllValid(a) && AllValid(b) && multiset(a) == multiset(b)
    ensures multiset(Rules(a)) == multiset(Rules(b))
    decreases |a|
  {
    Sorting.SameElements(a, b);
    if a != [] {
      assert a[0] in b;
      var k :| 0 <= k < |b| && b[k] == a[0];
      RuleRemoved(a, 0);
      RuleRemoved(b, k);
      RulesMultiset(Without(a, 0), Without(b, k));
    }
  }

  // The order of the rules in the input does not matter.
  lemma OrderIrrelevant(
      r: Result<seq<NatRule>, NatError>, entries: seq<RawNatRule>,
      r': Result<seq<NatRule>, NatError>, entries': seq<RawNatRule>)
    requires Outcome(r, entries) && Outcome(r', entries') && multiset(entries) == multiset(entries')
    ensures r.Ok? <==> r'.Ok?
    ensures r.Ok? ==> r == r'
  {
    SucceedsExactly(r, entries);
    SucceedsExactly(r', entries');
    if Acceptable(entries) {
      PermutedAcceptable(entries, entries');
    }
    if Acceptable(entries') {
      PermutedAcceptable(entries', entries);
    }
    if r.Ok? {
      RulesMultiset(entries, entries');
      DistinctIds(Rules(entries), r.value);
      Canonical(r.value, r'.value);
    }
  }

  lemma PermutedAcceptable(a: seq<RawNatRule>, b: seq<RawNatRule>)
    requires Acceptable(a) && multiset(a) == multiset(b)
    ensures Acceptable(b)
  {
    Sorting.SameElements(a, b);
    RulesMultiset(a, b);
    DistinctIds(Rules(a), Rules(b));
  }

  lemma DistinctIds(a: seq<NatRule>, b: seq<NatRule>)
    requires Sorting.Distinct(Ids(a)) && multiset(a) == multiset(b)
    ensures Sorting.Distinct(Ids(b))
  {
    forall i, j | 0 <= i < j < |a|
      ensures a[i] != a[j]
    {
      assert Ids(a)[i] != Ids(a)[j];
    }
    Sorting.DistinctPermuted(a, b);
    Sorting.SameElements(a, b);
    forall i, j | 0 <= i < j < |b|
      ensures Ids(b)[i] != Ids(b)[j]
    {
      assert b[i] in a && b[j] in a;
      var k :| 0 <= k < |a| && a[k] == b[i];
      var l :| 0 <= l < |a| && a[l] == b[j];
      assert Ids(a)[k] == a[k].ruleId && Ids(a)[l] == a[l].ruleId;
    }
  }

  // ---- what a rule is ----

  // A rule is accepted exactly if it has a number, an interface, and two addresses, and
  // these are what it becomes.
  lemma RuleExactly(raw: RawNatRule, rule: NatRule)
    ensures NormalizeRule(raw) == Some(rule) <==> (
      && raw == RawNatRule(Number(rule.ruleId), Some(rule.outbound), Some(rule.source), Some(rule.translation))
      && Validate.IsToken(rule.outbound, false) && Validate.IsToken(rule.source, true)
      && Validate.IsToken(rule.translation, true))
  {
  }

  // The result has the rules of the entries in ascending order of their numbers.
  lemma RulesExactly(rules: seq<NatRule>, entries: seq<RawNatRule>)
    requires Outcome(Ok(rules), entries)
    ensures |rules| == |entries|
    ensures forall i, j | 0 <= i < j < |rules| :: rules[i].ruleId < rules[j].ruleId
    ensures forall r :: r in rules <==> exists e :: e in entries && NormalizeRule(e) == Some(r)
  {
    var made := Rules(entries);
    Sorting.SameElements(rules, made);
    DistinctIds(made, rules);
    Canonical(rules, rules);
    forall r
      ensures r in rules <==> exists e :: e in entries && NormalizeRule(e) == Some(r)
    {
      RuleMade(entries, r);
    }
  }

  lemma RuleMade(entries: seq<RawNatRule>, r: NatRule)
    requires AllValid(entries)
    ensures r in Rules(entries) <==> exists e :: e in entries && NormalizeRule(e) == Some(r)
  {
    if r in Rules(entries) {
      var k :| 0 <= k < |entries| && Rules(entries)[k] == r;
      assert entries[k] in entries && NormalizeRule(entries[k]) == Some(r);
    }
    if e :| e in entries && NormalizeRule(e) == Some(r) {
      var k :| 0 <= k < |entries| && entries[k] == e;
      assert Rules(entries)[k] == r;
    }
  }
}

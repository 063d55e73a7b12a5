/**
 * The risk ledger as values: the update `_add_risk` performs on the
 * line -> description map, and the sorted list `get_risks` returns.
 */
module Ledger {
  import opened Wrappers
  import opened Rules

  type Risks = map<nat, string>

  /** Python truthiness of a line number: present and not zero. */
  predicate Truthy(line: Option<nat>) {
    line.Some? && line.value != 0
  }

  /** Every stored description has a priority. */
  predicate Known(risks: Risks) {
    forall l :: l in risks ==> risks[l] in RiskPriority
  }

  /** No stored description is the async-driver one. */
  predicate NoAsync(risks: Risks) {
    forall l :: l in risks ==> risks[l] != AsyncDesc
  }

  /** The two priority lookups `_add_risk` makes for a line it has seen succeed. */
  predicate SafeLookup(risks: Risks, line: Option<nat>, desc: string) {
    Truthy(line) && desc != "" && line.value in risks ==> desc in RiskPriority && risks[line.value] in RiskPriority
  }

  /**
   * `_add_risk`: a missing or zero line or an empty description changes
   * nothing; an unseen line is inserted; a seen line is replaced only by a
   * description of strictly greater priority; no other line is touched.
   */
  function Record(risks: Risks, line: Option<nat>, desc: string): (r: Risks)
    requires SafeLookup(risks, line, desc)
    ensures !Truthy(line) || desc == "" ==> r == risks
    ensures Truthy(line) && desc != "" ==> r.Keys == risks.Keys + {line.value}
    ensures forall l :: l in risks && !(Truthy(line) && l == line.value) ==> r[l] == risks[l]
    ensures Truthy(line) && desc != "" && line.value !in risks ==> r[line.value] == desc
    ensures Truthy(line) && desc != "" && line.value in risks ==>
      if Rank(desc) > Rank(risks[line.value]) then r[line.value] == desc else r[line.value] == risks[line.value]
  {
    if !Truthy(line) || desc == "" then
      risks
    else if line.value in risks then
      if RiskPriority[desc] > RiskPriority[risks[line.value]] then risks[line.value := desc] else risks
    else
      risks[line.value := desc]
  }

  /** A line's stored priority never decreases, and no line disappears. */
  lemma RecordNeverLowers(risks: Risks, line: Option<nat>, desc: string)
    requires SafeLookup(risks, line, desc)
    ensures forall l :: l in risks ==> l in Record(risks, line, desc) && Rank(Record(risks, line, desc)[l]) >= Rank(risks[l])
  {
  }

  /**
   * Two findings on a fresh line: the one of strictly greater priority is
   * kept, and on a tie the first one recorded stays.
   */
  lemma SameLineArbitration(risks: Risks, l: nat, first: string, second: string)
    requires l != 0 && l !in risks && first in RiskPriority && second in RiskPriority
    ensures Record(Record(risks, Some(l), first), Some(l), second)[l] ==
      if Rank(second) > Rank(first) then second else first
  {
  }

  predicate StrictlyAscending(rs: seq<(nat, string)>) {
    forall a, b :: 0 <= a < b < |rs| ==> rs[a].0 < rs[b].0
  }

  predicate IsLeast(m: nat, keys: set<nat>) {
    m in keys && forall k :: k in keys ==> m <= k
  }

  lemma {:induction false} MinExists(keys: set<nat>)
    requires keys != {}
    ensures exists m :: IsLeast(m, keys)
  {
    var x :| x in keys;
    if keys == {x} {
      assert IsLeast(x, keys);
    } else {
      var rest := keys - {x};
      MinExists(rest);
      var m :| IsLeast(m, rest);
      var least := if x < m then x else m;
      forall k | k in keys ensures least <= k {
        if k != x {
          assert k in rest;
        }
      }
      assert IsLeast(least, keys);
    }
  }

  /** The smallest line of a non-empty ledger. */
  function MinLine(keys: set<nat>): (m: nat)
    requires keys != {}
    ensures m in keys && forall k :: k in keys ==> m <= k
  {
    MinExists(keys);
    var m :| IsLeast(m, keys);
    m
  }

  /** `r` lists exactly the pairs of `risks`, in strictly ascending line order. */
  ghost predicate ListsInOrder(r: seq<(nat, string)>, risks: Risks) {
    && StrictlyAscending(r)
    && (forall k :: 0 <= k < |r| ==> r[k].0 in risks && risks[r[k].0] == r[k].1)
    && (forall l :: l in risks ==> exists k :: 0 <= k < |r| && r[k] == (l, risks[l]))
    && |r| == |risks|
  }

  lemma MapSizeAfterRemove(risks: Risks, m: nat)
    requires m in risks
    ensures |risks| == |risks - {m}| + 1
  {
    assert risks.Keys == (risks - {m}).Keys + {m};
    assert |risks.Keys| == |(risks - {m}).Keys| + 1;
  }

  /** Putting the least line in front of the sorted rest sorts the whole ledger. */
  lemma SortedCons(risks: Risks, m: nat, tail: seq<(nat, string)>)
    requires m in risks && forall k :: k in risks ==> m <= k
    requires ListsInOrder(tail, risks - {m})
    ensures ListsInOrder([(m, risks[m])] + tail, risks)
  {
    ConsAscending(risks, m, tail);
    ConsEntries(risks, m, tail);
    ConsComplete(risks, m, tail);
    MapSizeAfterRemove(risks, m);
  }

  lemma ConsAscending(risks: Risks, m: nat, tail: seq<(nat, string)>)
    requires m in risks && forall k :: k in risks ==> m <= k
    requires StrictlyAscending(tail)
    requires forall k :: 0 <= k < |tail| ==> tail[k].0 in risks - {m}
    ensures StrictlyAscending([(m, risks[m])] + tail)
  {
    var r := [(m, risks[m])] + tail;
    forall a, b | 0 <= a < b < |r| ensures r[a].0 < r[b].0 {
      assert r[b] == tail[b - 1];
      if a > 0 {
        assert r[a] == tail[a - 1];
      } else {
        assert tail[b - 1].0 in risks - {m};
      }
    }
  }

  lemma ConsEntries(risks: Risks, m: nat, tail: seq<(nat, string)>)
    requires m in risks
    requires forall k :: 0 <= k < |tail| ==> tail[k].0 in risks - {m} && (risks - {m})[tail[k].0] == tail[k].1
    ensures var r := [(m, risks[m])] + tail;
      forall k :: 0 <= k < |r| ==> r[k].0 in risks && risks[r[k].0] == r[k].1
  {
    var r := [(m, risks[m])] + tail;
    forall k | 0 <= k < |r| ensures r[k].0 in risks && risks[r[k].0] == r[k].1 {
      if k > 0 {
        assert r[k] == tail[k - 1];
      }
    }
  }

  lemma ConsComplete(risks: Risks, m: nat, tail: seq<(nat, string)>)
    requires m in risks
    requires forall l :: l in risks - {m} ==> exists k :: 0 <= k < |tail| && tail[k] == (l, (risks - {m})[l])
    ensures var r := [(m, risks[m])] + tail;
      forall l :: l in risks ==> exists k :: 0 <= k < |r| && r[k] == (l, risks[l])
  {
    var r := [(m, risks[m])] + tail;
    forall l | l in risks ensures exists k :: 0 <= k < |r| && r[k] == (l, risks[l]) {
      if l == m {
        assert r[0] == (l, risks[l]);
      } else {
        assert l in risks - {m};
        var k :| 0 <= k < |tail| && tail[k] == (l, (risks - {m})[l]);
        assert r[k + 1] == (l, risks[l]);
      }
    }
  }

  /**
   * `get_risks`: exactly the (line, description) pairs of the ledger, in
   * ascending line order, each line once.
   */
  function SortedRisks(risks: Risks): (r: seq<(nat, string)>)
    ensures StrictlyAscending(r)
    ensures forall k :: 0 <= k < |r| ==> r[k].0 in risks && risks[r[k].0] == r[k].1
    ensures forall l :: l in risks ==> exists k :: 0 <= k < |r| && r[k] == (l, risks[l])
    ensures |r| == |risks|
    decreases risks.Keys
  {
    if risks == map[] then
      []
    else
      var m := MinLine(risks.Keys);
      var rest := risks - {m};
      assert rest.Keys < risks.Keys;
      var tail := SortedRisks(rest);
      SortedCons(risks, m, tail);
      [(m, risks[m])] + tail
  }
}

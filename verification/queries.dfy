/** The document-level operations of `GherkinObject`: grouping scenarios by
    tag and replacing scenario outlines by their concrete examples. */
module Queries {
  import opened Text
  import opened Model
  import opened Substitution

  // ---------------------------------------------------------------------------
  // GetScenariosByTag

  /** One step of the inner loop: append `s` to the list of tag `t`, creating
      the list on first use. */
  function AddToTag(m: map<string, seq<Scenario>>, t: string, s: Scenario): map<string, seq<Scenario>>
  {
    if t in m then m[t := m[t] + [s]] else m[t := [s]]
  }

  /** The inner loop: `s` is added once for each of its tags, in tag order. */
  function AddScenario(m: map<string, seq<Scenario>>, s: Scenario, tags: seq<string>): map<string, seq<Scenario>>
    decreases |tags|
  {
    if |tags| == 0 then m else AddScenario(AddToTag(m, tags[0], s), s, tags[1..])
  }

  /** The outer loop over the scenarios, in document order. */
  function GroupFrom(m: map<string, seq<Scenario>>, scenarios: seq<Scenario>): map<string, seq<Scenario>>
    decreases |scenarios|
  {
    if |scenarios| == 0 then m
    else GroupFrom(AddScenario(m, scenarios[0], scenarios[0].tags), scenarios[1..])
  }

  /** The list a map holds for `t`, empty when `t` is not a key. */
  function Lookup(m: map<string, seq<Scenario>>, t: string): seq<Scenario> {
    if t in m then m[t] else []
  }

  function Repeat(s: Scenario, n: nat): (r: seq<Scenario>)
    ensures |r| == n && forall i :: 0 <= i < n ==> r[i] == s
  {
    if n == 0 then [] else [s] + Repeat(s, n - 1)
  }

  function Count(xs: seq<string>, t: string): nat {
    if |xs| == 0 then 0 else (if xs[0] == t then 1 else 0) + Count(xs[1..], t)
  }

  lemma {:induction false} CountPositive(xs: seq<string>, t: string)
    ensures Count(xs, t) > 0 <==> t in xs
  {
    if |xs| > 0 {
      CountPositive(xs[1..], t);
      assert xs == [xs[0]] + xs[1..];
    }
  }

  /** Reference grouping: scenario by scenario, each scenario once per
      occurrence of `t` among its tags. */
  function Tagged(scenarios: seq<Scenario>, t: string): seq<Scenario>
    decreases |scenarios|
  {
    if |scenarios| == 0 then []
    else Repeat(scenarios[0], Count(scenarios[0].tags, t)) + Tagged(scenarios[1..], t)
  }

  /** Some scenario carries tag `t`. */
  predicate HasTag(scenarios: seq<Scenario>, t: string) {
    exists i :: 0 <= i < |scenarios| && t in scenarios[i].tags
  }

  lemma {:induction false} AddScenarioSpec(m: map<string, seq<Scenario>>, s: Scenario, tags: seq<string>)
    ensures forall t :: t in AddScenario(m, s, tags) <==> t in m || t in tags
    ensures forall t :: Lookup(AddScenario(m, s, tags), t) == Lookup(m, t) + Repeat(s, Count(tags, t))
    decreases |tags|
  {
    if |tags| > 0 {
      var m1 := AddToTag(m, tags[0], s);
      AddScenarioSpec(m1, s, tags[1..]);
      assert tags == [tags[0]] + tags[1..];
      forall t
        ensures Lookup(AddScenario(m, s, tags), t) == Lookup(m, t) + Repeat(s, Count(tags, t))
      {
        if t == tags[0] {
          assert Repeat(s, Count(tags, t)) == [s] + Repeat(s, Count(tags[1..], t));
        }
      }
    }
  }

  lemma {:induction false} GroupFromSpec(m: map<string, seq<Scenario>>, scenarios: seq<Scenario>)
    ensures forall t :: t in GroupFrom(m, scenarios) <==> t in m || HasTag(scenarios, t)
    ensures forall t :: Lookup(GroupFrom(m, scenarios), t) == Lookup(m, t) + Tagged(scenarios, t)
    decreases |scenarios|
  {
    if |scenarios| > 0 {
      var s := scenarios[0];
      var m1 := AddScenario(m, s, s.tags);
      AddScenarioSpec(m, s, s.tags);
      GroupFromSpec(m1, scenarios[1..]);
      forall t
        ensures HasTag(scenarios, t) <==> t in s.tags || HasTag(scenarios[1..], t)
      {
        if HasTag(scenarios[1..], t) {
          var i :| 0 <= i < |scenarios[1..]| && t in scenarios[1..][i].tags;
          assert t in scenarios[i + 1].tags;
        }
        if HasTag(scenarios, t) && t !in s.tags {
          var i :| 0 <= i < |scenarios| && t in scenarios[i].tags;
          assert t in scenarios[1..][i - 1].tags;
        }
      }
    }
  }

  /** `GetScenariosByTag`: the keys are exactly the tags some scenario
      carries, and each tag's list is the scenarios carrying it, in document
      order, once per occurrence of the tag. */
  function GetScenariosByTag(doc: Document): (r: map<string, seq<Scenario>>)
    ensures forall t :: t in r <==> HasTag(doc.scenarios, t)
    ensures forall t :: t in r ==> r[t] == Tagged(doc.scenarios, t)
  {
    GroupFromSpec(map[], doc.scenarios);
    GroupFrom(map[], doc.scenarios)
  }

  /** A scenario is listed under tag `t` exactly when it is one of the
      document's scenarios and carries `t`. */
  lemma {:induction false} TaggedMembership(scenarios: seq<Scenario>, t: string, s: Scenario)
    ensures s in Tagged(scenarios, t) <==> s in scenarios && t in s.tags
    decreases |scenarios|
  {
    if |scenarios| > 0 {
      TaggedMembership(scenarios[1..], t, s);
      CountPositive(scenarios[0].tags, t);
      var rep := Repeat(scenarios[0], Count(scenarios[0].tags, t));
      assert s in rep <==> s == scenarios[0] && t in s.tags;
      assert scenarios == [scenarios[0]] + scenarios[1..];
    }
  }

  lemma ByTagMembership(doc: Document, t: string, s: Scenario)
    ensures t in GetScenariosByTag(doc) ==>
      (s in GetScenariosByTag(doc)[t] <==> s in doc.scenarios && t in s.tags)
    ensures s in doc.scenarios && t in s.tags ==> t in GetScenariosByTag(doc)
  {
    TaggedMembership(doc.scenarios, t, s);
    if s in doc.scenarios && t in s.tags {
      var i :| 0 <= i < |doc.scenarios| && doc.scenarios[i] == s;
      assert HasTag(doc.scenarios, t);
    }
  }

  /** Total length of the lists a grouping holds under `keys`. */
  ghost function SizeOf(m: map<string, seq<Scenario>>, keys: set<string>): nat
    requires keys <= m.Keys
    decreases keys
  {
    if keys == {} then 0
    else
      var k :| k in keys;
      |m[k]| + SizeOf(m, keys - {k})
  }

  /** Total length of all lists of a grouping. */
  ghost function TotalSize(m: map<string, seq<Scenario>>): nat {
    SizeOf(m, m.Keys)
  }

  /** Any key may be counted first. */
  lemma {:induction false} SizeOfRemove(m: map<string, seq<Scenario>>, keys: set<string>, k: string)
    requires keys <= m.Keys && k in keys
    ensures SizeOf(m, keys) == |m[k]| + SizeOf(m, keys - {k})
    decreases keys
  {
    var j :| j in keys && SizeOf(m, keys) == |m[j]| + SizeOf(m, keys - {j});
    if j != k {
      SizeOfRemove(m, keys - {j}, k);
      SizeOfRemove(m, keys - {k}, j);
      assert keys - {j} - {k} == keys - {k} - {j};
    }
  }

  /** Only the lists under `keys` count. */
  lemma {:induction false} SizeOfAgree(m: map<string, seq<Scenario>>, m': map<string, seq<Scenario>>, keys: set<string>)
    requires keys <= m.Keys && keys <= m'.Keys
    requires forall x :: x in keys ==> m[x] == m'[x]
    ensures SizeOf(m, keys) == SizeOf(m', keys)
    decreases keys
  {
    if keys != {} {
      var k :| k in keys;
      SizeOfRemove(m, keys, k);
      SizeOfRemove(m', keys, k);
      SizeOfAgree(m, m', keys - {k});
    }
  }

  lemma TotalSizeAdd(m: map<string, seq<Scenario>>, t: string, s: Scenario)
    ensures TotalSize(AddToTag(m, t, s)) == TotalSize(m) + 1
  {
    var m' := AddToTag(m, t, s);
    var rest := m.Keys - {t};
    assert m'.Keys - {t} == rest;
    SizeOfRemove(m', m'.Keys, t);
    SizeOfAgree(m, m', rest);
    if t in m {
      SizeOfRemove(m, m.Keys, t);
    } else {
      assert m.Keys == rest;
    }
  }

  function SumTags(scenarios: seq<Scenario>): nat
    decreases |scenarios|
  {
    if |scenarios| == 0 then 0 else |scenarios[0].tags| + SumTags(scenarios[1..])
  }

  lemma {:induction false} GroupFromSize(m: map<string, seq<Scenario>>, scenarios: seq<Scenario>)
    ensures TotalSize(GroupFrom(m, scenarios)) == TotalSize(m) + SumTags(scenarios)
    decreases |scenarios|
  {
    if |scenarios| > 0 {
      var s := scenarios[0];
      AddScenarioSize(m, s, s.tags);
      GroupFromSize(AddScenario(m, s, s.tags), scenarios[1..]);
    }
  }

  lemma {:induction false} AddScenarioSize(m: map<string, seq<Scenario>>, s: Scenario, tags: seq<string>)
    ensures TotalSize(AddScenario(m, s, tags)) == TotalSize(m) + |tags|
    decreases |tags|
  {
    if |tags| > 0 {
      TotalSizeAdd(m, tags[0], s);
      AddScenarioSize(AddToTag(m, tags[0], s), s, tags[1..]);
    }
  }

  /** The grouping is a faithful multimap: its lists hold as many entries in
      all as there are tags on all scenarios. */
  lemma ByTagSize(doc: Document)
    ensures TotalSize(GetScenariosByTag(doc)) == SumTags(doc.scenarios)
  {
    GroupFromSize(map[], doc.scenarios);
  }

  // ---------------------------------------------------------------------------
  // TransformScenarioOutlineToClassicScenarioAndOverrideScenarioList

  /** Number of example cases of an outline: the shortest column's length
      (the common length when all columns agree), none without columns. */
  function CaseCount(examples: Examples): (r: nat)
    ensures forall k :: 0 <= k < |examples| ==> r <= |examples[k].1|
    ensures |examples| > 0 ==> exists k :: 0 <= k < |examples| && r == |examples[k].1|
    ensures |examples| == 0 ==> r == 0
    decreases |examples|
  {
    if |examples| == 0 then 0
    else if |examples| == 1 then |examples[0].1|
    else
      var rest := CaseCount(examples[1..]);
      assert forall k :: 1 <= k < |examples| ==> examples[k] == examples[1..][k - 1];
      if |examples[0].1| <= rest then |examples[0].1| else rest
  }

  /** When every column has `n` values there are `n` cases. */
  lemma CaseCountUniform(examples: Examples, n: nat)
    requires |examples| > 0
    requires forall k :: 0 <= k < |examples| ==> |examples[k].1| == n
    ensures CaseCount(examples) == n
  {
  }

  /** Every instruction of a list substituted for case `n`. */
  function ResolveAll(list: seq<Instruction>, examples: Examples, n: nat): (r: seq<Instruction>)
    requires CaseInRange(examples, n)
    ensures |r| == |list|
    ensures forall i :: 0 <= i < |list| ==> r[i] == ResolveExampleValueInNewObject(list[i], examples, n)
  {
    seq(|list|, i requires 0 <= i < |list| => ResolveExampleValueInNewObject(list[i], examples, n))
  }

  /** Concrete scenario for example case `n` (0-based) of an outline. */
  function ExpandCase(s: Scenario, n: nat): (r: Scenario)
    requires n < CaseCount(s.examples)
    ensures !r.isOutline && r.examples == []
  {
    Scenario(
      s.name + " Example " + NatToString(n + 1),
      ResolveAll(s.givens, s.examples, n),
      ResolveText(s.when, s.examples, n),
      ResolveAll(s.whens, s.examples, n),
      ResolveAll(s.thens, s.examples, n),
      s.tags,
      false,
      [])
  }

  /** `Scenario.GetScenariosFromOutline`: one scenario per example case,
      named "{name} Example {k}" for k from 1, not an outline, no examples,
      same tags, every instruction substituted for its case. */
  function Expand(s: Scenario): (r: seq<Scenario>)
    ensures |r| == CaseCount(s.examples)
    ensures forall k :: 0 <= k < |r| ==>
      && r[k].name == s.name + " Example " + NatToString(k + 1)
      && !r[k].isOutline
      && r[k].examples == []
      && r[k].tags == s.tags
      && |r[k].givens| == |s.givens| && |r[k].whens| == |s.whens| && |r[k].thens| == |s.thens|
      && (forall i :: 0 <= i < |s.givens| ==>
            r[k].givens[i] == ResolveExampleValueInNewObject(s.givens[i], s.examples, k))
      && (forall i :: 0 <= i < |s.whens| ==>
            r[k].whens[i] == ResolveExampleValueInNewObject(s.whens[i], s.examples, k))
      && (forall i :: 0 <= i < |s.thens| ==>
            r[k].thens[i] == ResolveExampleValueInNewObject(s.thens[i], s.examples, k))
  {
    seq(CaseCount(s.examples), k requires 0 <= k < CaseCount(s.examples) => ExpandCase(s, k))
  }

  /** What replaces one scenario: itself, or its expansion when it is an outline. */
  function Piece(s: Scenario): seq<Scenario> {
    if s.isOutline then Expand(s) else [s]
  }

  /** The loop of the transform, building the new scenario list. */
  function TransformList(scenarios: seq<Scenario>): (r: seq<Scenario>)
    ensures forall i :: 0 <= i < |r| ==> !r[i].isOutline
    decreases |scenarios|
  {
    if |scenarios| == 0 then [] else Piece(scenarios[0]) + TransformList(scenarios[1..])
  }

  /** `TransformScenarioOutlineToClassicScenarioAndOverrideScenarioList`:
      only the scenario list changes, and no outline remains in it. */
  function TransformOutlines(doc: Document): (r: Document)
    ensures r.featureName == doc.featureName && r.featureTags == doc.featureTags
    ensures r.background == doc.background
    ensures forall i :: 0 <= i < |r.scenarios| ==> !r.scenarios[i].isOutline
  {
    doc.(scenarios := TransformList(doc.scenarios))
  }

  /** The transform works scenario by scenario: on a concatenation it is the
      concatenation of the transforms. */
  lemma {:induction false} TransformAppend(a: seq<Scenario>, b: seq<Scenario>)
    ensures TransformList(a + b) == TransformList(a) + TransformList(b)
    decreases |a|
  {
    if |a| > 0 {
      TransformAppend(a[1..], b);
      assert (a + b)[0] == a[0];
      assert (a + b)[1..] == a[1..] + b;
      assert TransformList(a + b) == Piece(a[0]) + TransformList(a[1..] + b);
    } else {
      assert a + b == b;
    }
  }

  lemma SliceAround<T>(s: seq<T>, i: nat)
    requires i < |s|
    ensures s == s[..i] + ([s[i]] + s[i + 1..])
  {
  }

  lemma Assoc<T>(a: seq<T>, b: seq<T>, c: seq<T>)
    ensures a + (b + c) == a + b + c
  {
  }

  lemma TransformCons(s: Scenario, rest: seq<Scenario>)
    ensures TransformList([s] + rest) == Piece(s) + TransformList(rest)
  {
    assert ([s] + rest)[1..] == rest;
  }

  /** Each scenario is replaced at its own position by its piece: everything
      before and after it is transformed independently. */
  lemma TransformInPlace(scenarios: seq<Scenario>, i: nat)
    requires i < |scenarios|
    ensures TransformList(scenarios) ==
      TransformList(scenarios[..i]) + Piece(scenarios[i]) + TransformList(scenarios[i + 1..])
  {
    var pre := scenarios[..i];
    var post := scenarios[i + 1..];
    var x := scenarios[i];
    SliceAround(scenarios, i);
    TransformAppend(pre, [x] + post);
    TransformCons(x, post);
    Assoc(TransformList(pre), Piece(x), TransformList(post));
  }

  /** Without outlines the transform changes nothing. */
  lemma {:induction false} TransformWithoutOutlines(scenarios: seq<Scenario>)
    requires forall i :: 0 <= i < |scenarios| ==> !scenarios[i].isOutline
    ensures TransformList(scenarios) == scenarios
    decreases |scenarios|
  {
    if |scenarios| > 0 {
      TransformWithoutOutlines(scenarios[1..]);
      assert scenarios == [scenarios[0]] + scenarios[1..];
    }
  }

  /** Applying the transform a second time changes nothing. */
  lemma TransformIdempotent(doc: Document)
    ensures TransformOutlines(TransformOutlines(doc)) == TransformOutlines(doc)
  {
    TransformWithoutOutlines(TransformOutlines(doc).scenarios);
  }

  /** Size of the transformed list: one per ordinary scenario plus the case
      count of every outline. */
  function ExpandedCount(scenarios: seq<Scenario>): nat
    decreases |scenarios|
  {
    if |scenarios| == 0 then 0
    else
      var own := if scenarios[0].isOutline then CaseCount(scenarios[0].examples) else 1;
      own + ExpandedCount(scenarios[1..])
  }

  lemma {:induction false} TransformLength(scenarios: seq<Scenario>)
    ensures |TransformList(scenarios)| == ExpandedCount(scenarios)
    decreases |scenarios|
  {
    if |scenarios| > 0 {
      TransformLength(scenarios[1..]);
    }
  }
}

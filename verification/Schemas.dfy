/** The schema's own verdict on a genome, against what the compiled method replies about its string. */
module SchemaVerdicts {
  import opened Wrappers
  import opened Aipl
  import opened Coherence
  import opened GenomeStrings

  // ----- the verdict -----

  /** The value of an axis in a genome kept as a dictionary. */
  function Value(es: seq<Entry>, axis: string): Option<string> {
    if es == [] then None else if es[0].name == axis then Some(es[0].value) else Value(es[1..], axis)
  }

  predicate Applies(r: Rule, es: seq<Entry>) {
    forall k :: 0 <= k < |r.conds| ==> Value(es, r.conds[k].0) == Some(r.conds[k].1)
  }

  predicate EqHolds(r: Rule, es: seq<Entry>) {
    forall k :: 0 <= k < |r.thenEq| ==> Value(es, r.thenEq[k].0) == Some(r.thenEq[k].1)
  }

  predicate InHolds(r: Rule, es: seq<Entry>) {
    forall k :: 0 <= k < |r.thenIn| ==>
      var v := Value(es, r.thenIn[k].0);
      v.Some? && v.value in r.thenIn[k].1
  }

  predicate NotHolds(r: Rule, es: seq<Entry>) {
    forall k :: 0 <= k < |r.thenNot| ==> Value(es, r.thenNot[k].0) != Some(r.thenNot[k].1)
  }

  function Position(vs: seq<string>, v: string): (i: nat)
    requires v in vs
    ensures i < |vs| && vs[i] == v
  {
    if vs[0] == v then 0 else 1 + Position(vs[1..], v)
  }

  /** An ordered axis has at least the given value; axes without an order are not looked at.  The source
      fails on a minimum outside the order; here such a minimum is not reached. */
  predicate MinHolds(r: Rule, es: seq<Entry>, order: map<string, seq<string>>) {
    forall k :: 0 <= k < |r.thenMin| && r.thenMin[k].0 in order && order[r.thenMin[k].0] != [] ==>
      var vs, v := order[r.thenMin[k].0], Value(es, r.thenMin[k].0);
      v.Some? && v.value in vs && r.thenMin[k].1 in vs && Position(vs, v.value) >= Position(vs, r.thenMin[k].1)
  }

  predicate Satisfies(r: Rule, es: seq<Entry>, order: map<string, seq<string>>) {
    Applies(r, es) ==> EqHolds(r, es) && InHolds(r, es) && NotHolds(r, es) && MinHolds(r, es, order)
  }

  predicate SchemaCoherent(rules: seq<Rule>, es: seq<Entry>, order: map<string, seq<string>>) {
    forall k :: 0 <= k < |rules| ==> Satisfies(rules[k], es, order)
  }

  // What one more entry of each kind adds to a rule.

  lemma OneMoreCondition(r: Rule, es: seq<Entry>, a: string, v: string)
    ensures Applies(r.(conds := r.conds + [(a, v)]), es) <==> Applies(r, es) && Value(es, a) == Some(v)
  {
    var before, after := r.conds, r.conds + [(a, v)];
    assert after[|before|] == (a, v) && forall k :: 0 <= k < |before| ==> after[k] == before[k];
  }

  lemma OneMoreValue(r: Rule, es: seq<Entry>, a: string, v: string)
    ensures EqHolds(r.(thenEq := r.thenEq + [(a, v)]), es) <==> EqHolds(r, es) && Value(es, a) == Some(v)
  {
    var before, after := r.thenEq, r.thenEq + [(a, v)];
    assert after[|before|] == (a, v) && forall k :: 0 <= k < |before| ==> after[k] == before[k];
  }

  lemma OneMoreList(r: Rule, es: seq<Entry>, a: string, vs: seq<string>)
    ensures InHolds(r.(thenIn := r.thenIn + [(a, vs)]), es) <==>
              InHolds(r, es) && Value(es, a).Some? && Value(es, a).value in vs
  {
    var before, after := r.thenIn, r.thenIn + [(a, vs)];
    assert after[|before|] == (a, vs) && forall k :: 0 <= k < |before| ==> after[k] == before[k];
  }

  lemma OneMoreForbidden(r: Rule, es: seq<Entry>, a: string, v: string)
    ensures NotHolds(r.(thenNot := r.thenNot + [(a, v)]), es) <==> NotHolds(r, es) && Value(es, a) != Some(v)
  {
    var before, after := r.thenNot, r.thenNot + [(a, v)];
    assert after[|before|] == (a, v) && forall k :: 0 <= k < |before| ==> after[k] == before[k];
  }

  lemma {:induction false} PositionFirst(vs: seq<string>, v: string, k: nat)
    requires k < |vs| && vs[k] == v
    ensures Position(vs, v) <= k
  {
    if vs[0] != v {
      PositionFirst(vs[1..], v, k - 1);
    }
  }

  /** A minimum is reached from its own place in the axis's order on; an axis without an order is not
      looked at, and a value outside the order does not reach any minimum. */
  lemma MinimumReached(r: Rule, es: seq<Entry>, order: map<string, seq<string>>, a: string, vs: seq<string>, i: nat,
                       j: nat)
    requires j < |vs| && (forall x, y :: 0 <= x < y < |vs| ==> vs[x] != vs[y]) && r.thenMin == [(a, vs[j])]
    ensures a !in order || order[a] == [] ==> MinHolds(r, es, order)
    ensures a in order && order[a] == vs && i < |vs| && Value(es, a) == Some(vs[i]) ==>
              (MinHolds(r, es, order) <==> j <= i)
    ensures a in order && order[a] == vs && (Value(es, a) == None || Value(es, a).value !in vs) ==>
              !MinHolds(r, es, order)
  {
    assert r.thenMin[0] == (a, vs[j]);
    PositionFirst(vs, vs[j], j);
    if i < |vs| {
      PositionFirst(vs, vs[i], i);
    }
  }

  // ----- rules the compiler reads as the schema does -----

  lemma {:induction false} ValueIsGet(es: seq<Entry>, axis: string)
    ensures Get(es, axis) == if Value(es, axis).Some? then Value(es, axis).value else ""
  {
    if es != [] && es[0].name != axis {
      ValueIsGet(es[1..], axis);
    }
  }

  /** One condition, and one requirement of the kinds that are compiled. */
  predicate Simple(r: Rule) {
    && |r.conds| == 1
    && |r.thenEq| + |r.thenIn| == 1 && r.thenNot == [] && r.thenMin == []
  }

  lemma SimpleSatisfies(r: Rule, es: seq<Entry>, order: map<string, seq<string>>)
    requires Simple(r)
    ensures Applies(r, es) <==> Value(es, r.conds[0].0) == Some(r.conds[0].1)
    ensures Satisfies(r, es, order) <==>
              (Applies(r, es) ==> Value(es, ThenAxis(r)).Some? && Allowed(r, Value(es, ThenAxis(r)).value))
  {
  }

  /** The axes a simple rule looks at are among the names. */
  predicate Looks(r: Rule, names: set<string>) {
    !Skipped(r) ==> r.conds[0].0 in names && ThenAxis(r) in names
  }

  /** For a simple rule the compiled check and the schema differ on a genome exactly when the rule
      applies and the axis it restricts is absent, or empty where empty is not allowed. */
  lemma SimpleRule(r: Rule, es: seq<Entry>, order: map<string, seq<string>>, names: set<string>)
    requires Simple(r) && r.conds[0].1 != "" && Sound(es, names, '=') && Looks(r, names)
    ensures (Holds(r, Encode(es, '=')) <==> Satisfies(r, es, order)) <==>
              !(Applies(r, es) && Get(es, ThenAxis(r)) == "" && !(Value(es, ThenAxis(r)) == Some("") && Allowed(r, "")))
  {
    SimpleSatisfies(r, es, order);
    ReadAxis(es, names, r.conds[0].0);
    ReadAxis(es, names, ThenAxis(r));
    ValueIsGet(es, r.conds[0].0);
    ValueIsGet(es, ThenAxis(r));
  }

  lemma ReadAxis(es: seq<Entry>, names: set<string>, axis: string)
    requires Sound(es, names, '=') && axis in names
    ensures GetAxis(Encode(es, '='), axis) == Get(es, axis)
  {
    FieldIsGet(es, names, '=', axis);
    GetAxisIsField(Encode(es, '='), axis);
  }

  /** Every axis has a value. */
  ghost predicate Complete(es: seq<Entry>, names: set<string>) {
    forall a :: a in names ==> Get(es, a) != ""
  }

  // ----- rules with more to them -----

  /** What the compiler leaves out of a rule with one condition: all requirements but the first. */
  predicate LeftOutHolds(r: Rule, es: seq<Entry>, order: map<string, seq<string>>) {
    && (forall k :: 1 <= k < |r.thenEq| ==> Value(es, r.thenEq[k].0) == Some(r.thenEq[k].1))
    && (forall k :: (if r.thenEq == [] then 1 else 0) <= k < |r.thenIn| ==>
          var v := Value(es, r.thenIn[k].0);
          v.Some? && v.value in r.thenIn[k].1)
    && NotHolds(r, es) && MinHolds(r, es, order)
  }

  /** A rule with one condition means its compiled check and, when it applies, what was left out. */
  lemma RuleParts(r: Rule, es: seq<Entry>, order: map<string, seq<string>>, names: set<string>)
    requires |r.conds| == 1 && Sound(es, names, '=') && Complete(es, names) && Looks(r, names)
    ensures Satisfies(r, es, order) <==> Holds(r, Encode(es, '=')) && (Applies(r, es) ==> LeftOutHolds(r, es, order))
  {
    assert Applies(r, es) <==> Value(es, r.conds[0].0) == Some(r.conds[0].1);
    if !Skipped(r) {
      ReadAxis(es, names, r.conds[0].0);
      ReadAxis(es, names, ThenAxis(r));
      ValueIsGet(es, r.conds[0].0);
      ValueIsGet(es, ThenAxis(r));
      FirstPart(r, es);
    }
  }

  lemma FirstPart(r: Rule, es: seq<Entry>)
    requires !Skipped(r)
    ensures EqHolds(r, es) && InHolds(r, es) <==>
              && Value(es, ThenAxis(r)).Some? && Allowed(r, Value(es, ThenAxis(r)).value)
              && (forall k :: 1 <= k < |r.thenEq| ==> Value(es, r.thenEq[k].0) == Some(r.thenEq[k].1))
              && (forall k :: (if r.thenEq == [] then 1 else 0) <= k < |r.thenIn| ==>
                    var v := Value(es, r.thenIn[k].0);
                    v.Some? && v.value in r.thenIn[k].1)
  {
  }

  /** With one condition a rule, the compiled method never turns down a complete genome that the schema
      accepts, and it differs from the schema exactly on the genomes that pass it and break something
      it leaves out. */
  lemma VerdictDiffers(rules: seq<Rule>, es: seq<Entry>, order: map<string, seq<string>>, names: set<string>)
    requires Sound(es, names, '=') && Complete(es, names)
    requires forall k :: 0 <= k < |rules| ==> |rules[k].conds| == 1 && Looks(rules[k], names)
    ensures SchemaCoherent(rules, es, order) ==> Coherent(rules, Encode(es, '='))
    ensures (Coherent(rules, Encode(es, '=')) <==> SchemaCoherent(rules, es, order)) <==>
              !(&& Coherent(rules, Encode(es, '='))
                && exists k :: 0 <= k < |rules| && Applies(rules[k], es) && !LeftOutHolds(rules[k], es, order))
  {
    forall k | 0 <= k < |rules|
      ensures Satisfies(rules[k], es, order) <==>
                Holds(rules[k], Encode(es, '=')) && (Applies(rules[k], es) ==> LeftOutHolds(rules[k], es, order))
    {
      RuleParts(rules[k], es, order, names);
    }
  }

  /** On complete genomes the compiled method replies what the schema finds, if all rules are simple. */
  lemma VerdictCompiled(rules: seq<Rule>, es: seq<Entry>, order: map<string, seq<string>>, names: set<string>)
    requires Sound(es, names, '=') && Complete(es, names)
    requires forall k :: 0 <= k < |rules| ==> Simple(rules[k]) && Looks(rules[k], names)
    ensures var done := Call(IsCoherentMethod(rules), map[Name.Genome := Str(Encode(es, '='))]);
            done.Some? && done.value.reply == Some(Num(if SchemaCoherent(rules, es, order) then 1 else 0))
  {
    MeaningPreserved(rules, Encode(es, '='));
    forall k | 0 <= k < |rules|
      ensures Holds(rules[k], Encode(es, '=')) <==> Satisfies(rules[k], es, order)
    {
      RuleParts(rules[k], es, order, names);
      assert LeftOutHolds(rules[k], es, order);
    }
  }

  /** Simple rules are not the only ones to agree on: a requirement that follows from the first one
      may be left out. */
  lemma RedundantAgrees(es: seq<Entry>, names: set<string>)
    requires Sound(es, names, '=') && Complete(es, names) && "a" in names && "b" in names
    ensures var r := Rule([("a", "x")], [("b", "y")], [], [("b", "z")], []);
            !Simple(r) && (Holds(r, Encode(es, '=')) <==> Satisfies(r, es, map[]))
  {
    var r := Rule([("a", "x")], [("b", "y")], [], [("b", "z")], []);
    RuleParts(r, es, map[], names);
    ReadAxis(es, names, "a");
    ReadAxis(es, names, "b");
    ValueIsGet(es, "a");
    ValueIsGet(es, "b");
    assert "y"[0] != "z"[0];
  }

  // ----- the shipped rule with two requirements -----

  /** An assembler has no types and no concurrency. */
  const ASSEMBLER: Rule :=
    Rule([("paradigm", "assembler")], [("type_safety", "none"), ("concurrency_model", "none")], [], [], [])

  const THREADED: seq<Entry> :=
    [Entry("paradigm", "assembler"), Entry("type_safety", "none"), Entry("concurrency_model", "threads_locks")]

  lemma ThreadedValues()
    ensures Value(THREADED, "paradigm") == Some("assembler") && Value(THREADED, "type_safety") == Some("none")
    ensures Value(THREADED, "concurrency_model") == Some("threads_locks")
  {
    var es := THREADED;
    assert es[1..] == [es[1], es[2]] && es[1..][1..] == [es[2]];
    assert "paradigm"[0] == 'p' && "type_safety"[0] == 't' && "concurrency_model"[0] == 'c';
  }

  lemma SuffixLast(a: string, b: string)
    requires a != "" && IsSuffix(a, b)
    ensures b != "" && a[|a| - 1] == b[|b| - 1]
  {
  }

  lemma ThreadedNames(a: string, b: string)
    requires a in {"paradigm", "type_safety", "concurrency_model"}
          && b in {"paradigm", "type_safety", "concurrency_model"}
    ensures IsSuffix(a, b) ==> a == b
  {
    assert "paradigm"[7] == 'm' && "type_safety"[10] == 'y' && "concurrency_model"[16] == 'l';
    if IsSuffix(a, b) {
      SuffixLast(a, b);
    }
  }

  lemma ThreadedPlain()
    ensures Plain("paradigm", '=') && Plain("type_safety", '=') && Plain("concurrency_model", '=')
    ensures Plain("assembler", '=') && Plain("none", '=') && Plain("threads_locks", '=')
  {
  }

  lemma ThreadedSound()
    ensures Sound(THREADED, {"paradigm", "type_safety", "concurrency_model"}, '=')
  {
    var names := {"paradigm", "type_safety", "concurrency_model"};
    ThreadedPlain();
    forall a, b | a in names && b in names && IsSuffix(a, b)
      ensures a == b
    {
      ThreadedNames(a, b);
    }
  }

  /** An assembler with threads breaks the schema's rule, and the compiled method passes it. */
  lemma AssemblerPasses()
    ensures Coherent([ASSEMBLER], Encode(THREADED, '=')) && !SchemaCoherent([ASSEMBLER], THREADED, map[])
  {
    var names := {"paradigm", "type_safety", "concurrency_model"};
    ThreadedValues();
    ThreadedSound();
    ReadAxis(THREADED, names, "type_safety");
    ValueIsGet(THREADED, "type_safety");
    assert Holds(ASSEMBLER, Encode(THREADED, '='));
    assert ASSEMBLER.thenEq[1] == ("concurrency_model", "none") && "none"[0] != "threads_locks"[0];
    assert !Satisfies([ASSEMBLER][0], THREADED, map[]);
  }
}

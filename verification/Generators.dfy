/** The emitted generator: random seeding, mutation and crossover of genome strings, retried until
    coherent. */
module Generators {
  import opened Aipl
  import opened Coherence
  import opened GenomeStrings

  const COMMA := ","

  // ----- comma-separated lists -----

  function Split(s: string): (parts: seq<string>)
    ensures parts != []
    decreases |s|
  {
    var c := Index(s, COMMA);
    if c < 0 then [s] else [s[..c]] + Split(s[c + 1..])
  }

  function Csv(vs: seq<string>): string {
    if vs == [] then "" else vs[0] + (if |vs| == 1 then "" else "," + Csv(vs[1..]))
  }

  predicate CommaFree(vs: seq<string>) {
    forall k :: 0 <= k < |vs| ==> ',' !in vs[k]
  }

  /** Values that a comma-separated list can hold; the list of one empty value reads as an empty list. */
  predicate Listable(vs: seq<string>) {
    vs != [] && vs != [""] && CommaFree(vs)
  }

  lemma CommaAfter(v: string, tail: string)
    requires ',' !in v && (tail == "" || tail[0] == ',')
    ensures Index(v + tail, COMMA) == if tail == "" then -1 else |v|
  {
    forall j: nat
      ensures OccursAt(v + tail, COMMA, j) <==> j < |v + tail| && (v + tail)[j] == ','
    {
      OccursOne(v + tail, ',', j);
    }
    if tail == "" {
      IndexNone(v + tail, COMMA);
    } else {
      IndexIs(v + tail, COMMA, |v|);
    }
  }

  /** Splitting gives back what was listed, empty values included. */
  lemma {:induction false} SplitCsv(vs: seq<string>)
    requires vs != [] && CommaFree(vs)
    ensures Split(Csv(vs)) == vs
    ensures Csv(vs) == "" <==> vs == [""]
  {
    if |vs| == 1 {
      CommaAfter(vs[0], "");
      assert vs[0] + "" == vs[0] && vs == [vs[0]];
    } else {
      var tail := "," + Csv(vs[1..]);
      CommaAfter(vs[0], tail);
      SplitCsv(vs[1..]);
      assert Csv(vs) == vs[0] + tail;
      assert Csv(vs)[..|vs[0]|] == vs[0] && Csv(vs)[|vs[0]| + 1..] == Csv(vs[1..]);
      assert vs == [vs[0]] + vs[1..];
    }
  }

  /** A list is its values with commas between them. */
  lemma CsvShape(v: string, w: string, vs: seq<string>)
    ensures Csv([]) == "" && Csv([v]) == v && Csv([v, w]) == v + "," + w
    ensures Csv([v, w] + vs) == v + "," + Csv([w] + vs)
  {
    assert ([v, w] + vs)[1..] == [w] + vs && [v, w][1..] == [w];
    assert v + ("," + w) == v + "," + w && v + ("," + Csv([w] + vs)) == v + "," + Csv([w] + vs);
  }

  method CountCsv(csv: string) returns (n: nat)
    ensures n == if csv == "" then 0 else |Split(csv)|
  {
    if |csv| == 0 {
      return 0;
    }
    n := 1;
    var s := csv;
    var done := false;
    while !done
      invariant done ==> n == |Split(csv)|
      invariant !done ==> |Split(csv)| == n - 1 + |Split(s)|
      decreases !done, |s|
    {
      var c := Index(s, COMMA);
      if c < 0 {
        done := true;
      } else {
        n := n + 1;
        s := s[c + 1..];
      }
    }
  }

  /** The n-th part, or "" past the last. */
  method NthCsv(csv: string, n: nat) returns (r: string)
    ensures r == if n < |Split(csv)| then Split(csv)[n] else ""
  {
    var i := 0;
    var s := csv;
    IndexNoneOf(COMMA);
    while i < n
      invariant 0 <= i <= n
      invariant if n < |Split(csv)| then n - i < |Split(s)| && Split(s)[n - i] == Split(csv)[n]
                else (i == n && s == "") || n - i >= |Split(s)|
      decreases n - i
    {
      var c := Index(s, COMMA);
      if c < 0 {
        s := "";
        i := n;
      } else {
        s := s[c + 1..];
        i := i + 1;
      }
    }
    var c2 := Index(s, COMMA);
    r := if c2 < 0 then s else s[..c2];
  }

  lemma IndexNoneOf(n: string)
    requires n != ""
    ensures Index("", n) == -1
  {
  }

  // ----- genomes with one entry per axis -----

  function NameSet(axes: seq<string>): set<string> {
    set k | 0 <= k < |axes| :: axes[k]
  }

  ghost predicate Distinct(axes: seq<string>) {
    forall i, j :: 0 <= i < j < |axes| ==> axes[i] != axes[j]
  }

  /** The entries are the axes in order. */
  ghost predicate Lists(es: seq<Entry>, axes: seq<string>) {
    |es| == |axes| && forall k :: 0 <= k < |es| ==> es[k].name == axes[k]
  }

  lemma {:induction false} EncodeAppend(es: seq<Entry>, e: Entry, sep: char)
    ensures Encode(es + [e], sep) == if es == [] then TextOf(e, sep) else Encode(es, sep) + "|" + TextOf(e, sep)
  {
    var more := es + [e];
    EncodeFirst(more, sep);
    if es == [] {
      assert more == [e];
    } else {
      EncodeFirst(es, sep);
      assert more[1..] == es[1..] + [e];
      EncodeAppend(es[1..], e, sep);
      if |es| > 1 {
        var front, mid := TextOf(es[0], sep) + "|", Encode(es[1..], sep);
        assert front + (mid + "|" + TextOf(e, sep)) == front + mid + "|" + TextOf(e, sep);
      }
    }
  }

  lemma {:induction false} GetAt(es: seq<Entry>, k: nat)
    requires k < |es| && forall i :: 0 <= i < k ==> es[i].name != es[k].name
    ensures Get(es, es[k].name) == es[k].value
  {
    if k > 0 {
      assert forall i :: 0 <= i < k - 1 ==> es[1..][i] == es[i + 1];
      GetAt(es[1..], k - 1);
    }
  }

  /** In a genome with one entry per axis, reading an axis gives its entry's value. */
  lemma AxisOf(es: seq<Entry>, axes: seq<string>, k: nat)
    requires Lists(es, axes) && Distinct(axes) && Sound(es, NameSet(axes), '=') && k < |axes|
    ensures GetAxis(Encode(es, '='), axes[k]) == es[k].value
  {
    assert axes[k] in NameSet(axes);
    FieldIsGet(es, NameSet(axes), '=', axes[k]);
    GetAxisIsField(Encode(es, '='), axes[k]);
    GetAt(es, k);
  }

  /** The value of an axis holds no separator, if the genome's values hold none. */
  lemma {:induction false} GetPlain(es: seq<Entry>, sep: char, name: string)
    requires forall k :: 0 <= k < |es| ==> Plain(es[k].value, sep)
    ensures Plain(Get(es, name), sep)
  {
    if es != [] && es[0].name != name {
      GetPlain(es[1..], sep, name);
    }
  }

  // ----- the generator -----

  const TRIES := 50

  function TableOf(axes: seq<string>, values: seq<seq<string>>): seq<Entry>
    requires |axes| == |values|
  {
    seq(|axes|, k requires 0 <= k < |axes| => Entry(axes[k], Csv(values[k])))
  }

  /** A schema whose names and values can be told apart in the strings made of them. */
  ghost predicate Schema(axes: seq<string>, values: seq<seq<string>>) {
    && |axes| == |values| && Listable(axes) && Distinct(axes)
    && (forall k :: 0 <= k < |values| ==> Listable(values[k]) && forall v :: v in values[k] ==> Plain(v, '='))
    && Sound([], NameSet(axes), '=')
    && Sound(TableOf(axes, values), NameSet(axes), ':')
  }

  /** The genomes that the operators draw, as functions of the random numbers from position p on. */
  datatype Source = Source(axes: seq<string>, values: seq<seq<string>>, random: nat -> nat) {
    function Pick(k: nat, p: nat): string
      requires k < |values| && values[k] != []
    {
      values[k][random(p) % |values[k]|]
    }

    /** Seeding draws one allowed value per axis, in the order of the axes. */
    function Seeded(p: nat): (es: seq<Entry>)
      requires Schema(axes, values)
      ensures Lists(es, axes)
    {
      seq(|axes|, k requires 0 <= k < |axes| => Entry(axes[k], Pick(k, p + k)))
    }

    /** Mutation draws an axis and then an allowed value for it. */
    function Mutated(parent: string, p: nat): string
      requires Schema(axes, values)
    {
      var k := random(p) % |axes|;
      SetAxis(parent, axes[k], Pick(k, p + 1))
    }

    /** Crossover draws a parent per axis, in the order of the axes. */
    function Crossed(a: string, b: string, p: nat): (es: seq<Entry>)
      ensures Lists(es, axes)
      ensures forall k :: 0 <= k < |axes| ==> es[k].value == GetAxis(a, axes[k]) || es[k].value == GetAxis(b, axes[k])
    {
      seq(|axes|, k requires 0 <= k < |axes| =>
        Entry(axes[k], GetAxis(if random(p + k) % 2 == 1 then b else a, axes[k])))
    }

    /** The position behind so many tries that draw step numbers each. */
    function After(p: nat, tries: nat, step: nat): nat {
      if tries == 0 then p else After(p, tries - 1, step) + step
    }

    /** The candidates of so many tries, each drawn behind the one before. */
    ghost function SeedTries(p: nat, tries: nat): (cands: seq<string>)
      requires Schema(axes, values)
      ensures |cands| == tries
    {
      if tries == 0 then []
      else SeedTries(p, tries - 1) + [Encode(Seeded(After(p, tries - 1, |axes|)), '=')]
    }

    ghost function MutateTries(parent: string, p: nat, tries: nat): (cands: seq<string>)
      requires Schema(axes, values)
      ensures |cands| == tries
    {
      if tries == 0 then [] else MutateTries(parent, p, tries - 1) + [Mutated(parent, After(p, tries - 1, 2))]
    }

    ghost function CrossTries(a: string, b: string, p: nat, tries: nat): (cands: seq<string>)
      ensures |cands| == tries
    {
      if tries == 0 then []
      else CrossTries(a, b, p, tries - 1) + [Encode(Crossed(a, b, After(p, tries - 1, |axes|)), '=')]
    }
  }

  /** The candidates of the tries so far, and the position behind their random numbers. */
  ghost predicate SeedsSoFar(d: Source, p: nat, cands: seq<string>, at: nat)
    requires Schema(d.axes, d.values)
  {
    cands == d.SeedTries(p, |cands|) && at == d.After(p, |cands|, |d.axes|)
  }

  ghost predicate MutantsSoFar(d: Source, parent: string, p: nat, cands: seq<string>, at: nat)
    requires Schema(d.axes, d.values)
  {
    cands == d.MutateTries(parent, p, |cands|) && at == d.After(p, |cands|, 2)
  }

  ghost predicate CrossesSoFar(d: Source, a: string, b: string, p: nat, cands: seq<string>, at: nat) {
    cands == d.CrossTries(a, b, p, |cands|) && at == d.After(p, |cands|, |d.axes|)
  }

  lemma NextSeed(d: Source, p: nat, cands: seq<string>, at: nat)
    requires Schema(d.axes, d.values) && SeedsSoFar(d, p, cands, at)
    ensures SeedsSoFar(d, p, cands + [Encode(d.Seeded(at), '=')], at + |d.axes|)
  {
  }

  lemma NextMutant(d: Source, parent: string, p: nat, cands: seq<string>, at: nat)
    requires Schema(d.axes, d.values) && MutantsSoFar(d, parent, p, cands, at)
    ensures MutantsSoFar(d, parent, p, cands + [d.Mutated(parent, at)], at + 2)
  {
  }

  lemma NextCross(d: Source, a: string, b: string, p: nat, cands: seq<string>, at: nat)
    requires CrossesSoFar(d, a, b, p, cands, at)
    ensures CrossesSoFar(d, a, b, p, cands + [Encode(d.Crossed(a, b, at), '=')], at + |d.axes|)
  {
  }

  /** Candidates tried one after the other: all but the last were incoherent, and the last is
      coherent unless all tries are used up. */
  ghost predicate Tried(cands: seq<string>, rules: seq<Rule>) {
    && 1 <= |cands| <= 50
    && (forall t :: 0 <= t < |cands| - 1 ==> !Coherent(rules, cands[t]))
    && (|cands| < 50 ==> Coherent(rules, cands[|cands| - 1]))
  }

  /** The tries so far, while the loop goes on and when it has stopped with the last candidate. */
  ghost predicate Trying(cands: seq<string>, rules: seq<Rule>, last: string, ok: int) {
    if ok == 0 then |cands| < TRIES && forall t :: 0 <= t < |cands| ==> !Coherent(rules, cands[t])
    else Tried(cands, rules) && last == cands[|cands| - 1]
  }

  lemma NextTry(cands: seq<string>, rules: seq<Rule>, last: string, cand: string, ok: int)
    requires Trying(cands, rules, last, 0) && ok == (if Coherent(rules, cand) then 1 else 0)
    ensures Trying(cands + [cand], rules, cand, if |cands| + 1 >= TRIES then 1 else ok)
  {
  }

  lemma NextAxis(es: seq<Entry>, i: nat, e: Entry)
    requires i < |es| && es[i] == e
    ensures es[..i + 1] == es[..i] + [e]
  {
  }

  lemma SeededAt(d: Source, p: nat, i: nat)
    requires Schema(d.axes, d.values) && i < |d.axes|
    ensures |d.Seeded(p)| == |d.axes| && d.Seeded(p)[i] == Entry(d.axes[i], d.Pick(i, p + i))
  {
  }

  lemma CrossedAt(d: Source, a: string, b: string, p: nat, i: nat)
    requires i < |d.axes|
    ensures |d.Crossed(a, b, p)| == |d.axes|
    ensures d.Crossed(a, b, p)[i] == Entry(d.axes[i], GetAxis(if d.random(p + i) % 2 == 1 then b else a, d.axes[i]))
  {
  }

  class Generator {
    const axesCsv: string
    const table: string
    const rules: seq<Rule>
    const random: nat -> nat
    var drawn: nat
    ghost const axes: seq<string>
    ghost const values: seq<seq<string>>

    ghost predicate Valid() {
      Schema(axes, values) && axesCsv == Csv(axes) && table == Encode(TableOf(axes, values), ':')
    }

    ghost function Draws(): Source {
      Source(axes, values, random)
    }

    constructor (axesCsv: string, table: string, rules: seq<Rule>, random: nat -> nat, ghost axes: seq<string>,
                 ghost values: seq<seq<string>>)
      requires Schema(axes, values) && axesCsv == Csv(axes) && table == Encode(TableOf(axes, values), ':')
      ensures Valid() && Draws() == Source(axes, values, random) && this.rules == rules && drawn == 0
    {
      this.axesCsv, this.table, this.rules, this.random := axesCsv, table, rules, random;
      this.axes, this.values := axes, values;
      drawn := 0;
    }

    /** The next random number, brought below n. */
    method Random(n: nat) returns (r: nat)
      requires n > 0
      modifies this
      ensures r == random(old(drawn)) % n && drawn == old(drawn) + 1
    {
      r := random(drawn) % n;
      drawn := drawn + 1;
    }

    /** Runs the compiled coherence method. */
    method IsCoherent(genome: string) returns (ok: int)
      ensures ok == if Coherent(rules, genome) then 1 else 0
    {
      MeaningPreserved(rules, genome);
      var done := Call(IsCoherentMethod(rules), map[Genome := Str(genome)]);
      ok := done.value.reply.value.n;
    }

    method CountAxes() returns (n: nat)
      requires Valid()
      ensures n == |axes|
    {
      SplitCsv(axes);
      n := CountCsv(axesCsv);
    }

    method AxisName(k: nat) returns (axis: string)
      requires Valid() && k < |axes|
      ensures axis == axes[k]
    {
      SplitCsv(axes);
      axis := NthCsv(axesCsv, k);
    }

    method RandomValue(ghost k: nat, axis: string) returns (v: string)
      requires Valid() && k < |axes| && axis == axes[k]
      modifies this
      ensures v == Draws().Pick(k, old(drawn)) && drawn == old(drawn) + 1
    {
      TableRow(axes, values, k);
      SplitCsv(values[k]);
      var vals := Field(table, axis + ":");
      var n := CountCsv(vals);
      var r := Random(n);
      v := NthCsv(vals, r);
    }

    /** One more axis behind the candidate so far. */
    method Extended(cand: string, i: nat, axis: string, v: string, ghost es: seq<Entry>) returns (more: string)
      requires |es| == i && cand == Encode(es, '=')
      ensures more == Encode(es + [Entry(axis, v)], '=')
    {
      EncodeAppend(es, Entry(axis, v), '=');
      if i == 0 {
        more := axis + "=" + v;
      } else {
        assert cand + "|" + axis + "=" + v == cand + "|" + (axis + "=" + v);
        more := cand + "|" + axis + "=" + v;
      }
    }

    method SeedAxis(cand: string, i: nat, ghost es: seq<Entry>, ghost p: nat) returns (more: string)
      requires Valid() && i < |axes| && es == Draws().Seeded(p) && cand == Encode(es[..i], '=') && drawn == p + i
      modifies this
      ensures more == Encode(es[..i + 1], '=') && drawn == old(drawn) + 1
    {
      var axis := AxisName(i);
      var v := RandomValue(i, axis);
      SeededAt(Draws(), p, i);
      NextAxis(es, i, Entry(axis, v));
      more := Extended(cand, i, axis, v, es[..i]);
    }

    method SeedOnce() returns (cand: string)
      requires Valid()
      modifies this
      ensures cand == Encode(Draws().Seeded(old(drawn)), '=') && drawn == old(drawn) + |axes|
    {
      var n := CountAxes();
      cand := "";
      ghost var es := Draws().Seeded(drawn);
      for i := 0 to n
        invariant drawn == old(drawn) + i && cand == Encode(es[..i], '=')
      {
        cand := SeedAxis(cand, i, es, old(drawn));
      }
      assert es[..n] == es;
    }

    ghost predicate Seeding(p: nat, cands: seq<string>, last: string, ok: int)
      reads this
    {
      Valid() && Trying(cands, rules, last, ok) && SeedsSoFar(Draws(), p, cands, drawn)
    }

    /** One more try, and whether to stop. */
    method SeedTry(tries: nat, ghost p: nat, ghost cands: seq<string>, ghost last: string)
      returns (g: string, ok: int, ghost more: seq<string>)
      requires Seeding(p, cands, last, 0) && |cands| == tries
      modifies this
      ensures Seeding(p, more, g, ok) && |more| == tries + 1
    {
      NextSeed(Draws(), p, cands, drawn);
      g := SeedOnce();
      ok := IsCoherent(g);
      NextTry(cands, rules, last, g, ok);
      more := cands + [g];
      if tries + 1 >= TRIES {
        ok := 1;
      }
    }

    /** A genome with an allowed value for every axis: the first coherent one of fifty, or the fiftieth. */
    method Seed() returns (g: string, ghost cands: seq<string>)
      requires Valid()
      modifies this
      ensures 1 <= |cands| <= 50 && g == cands[|cands| - 1] && (|cands| < 50 ==> Coherent(rules, g))
      ensures forall t :: 0 <= t < |cands| - 1 ==> !Coherent(rules, cands[t])
      ensures cands == Draws().SeedTries(old(drawn), |cands|)
    {
      g, cands := "", [];
      var tries, ok := 0, 0;
      while ok == 0
        invariant Seeding(old(drawn), cands, g, ok) && |cands| == tries
        decreases TRIES - tries, ok == 0
      {
        g, ok, cands := SeedTry(tries, old(drawn), cands, g);
        tries := tries + 1;
      }
    }

    method MutateOnce(parent: string) returns (cand: string)
      requires Valid()
      modifies this
      ensures cand == Draws().Mutated(parent, old(drawn)) && drawn == old(drawn) + 2
    {
      var n := CountAxes();
      var idx := Random(n);
      var axis := AxisName(idx);
      var v := RandomValue(idx, axis);
      cand := SetAxis(parent, axis, v);
    }

    ghost predicate Mutating(parent: string, p: nat, cands: seq<string>, last: string, ok: int)
      reads this
    {
      Valid() && Trying(cands, rules, last, ok) && MutantsSoFar(Draws(), parent, p, cands, drawn)
    }

    /** One more try, and whether to stop. */
    method MutateTry(parent: string, tries: nat, ghost p: nat, ghost cands: seq<string>, ghost last: string)
      returns (child: string, ok: int, ghost more: seq<string>)
      requires Mutating(parent, p, cands, last, 0) && |cands| == tries
      modifies this
      ensures Mutating(parent, p, more, child, ok) && |more| == tries + 1
    {
      NextMutant(Draws(), parent, p, cands, drawn);
      child := MutateOnce(parent);
      ok := IsCoherent(child);
      NextTry(cands, rules, last, child, ok);
      more := cands + [child];
      if tries + 1 >= TRIES {
        ok := 1;
      }
    }

    /** The parent with one axis set to an allowed value: the first coherent child of fifty, or the
        fiftieth. */
    method Mutate(parent: string) returns (child: string, ghost cands: seq<string>)
      requires Valid()
      modifies this
      ensures 1 <= |cands| <= 50 && child == cands[|cands| - 1] && (|cands| < 50 ==> Coherent(rules, child))
      ensures forall t :: 0 <= t < |cands| - 1 ==> !Coherent(rules, cands[t])
      ensures cands == Draws().MutateTries(parent, old(drawn), |cands|)
    {
      child, cands := parent, [];
      var tries, ok := 0, 0;
      while ok == 0
        invariant Mutating(parent, old(drawn), cands, child, ok) && |cands| == tries
        decreases TRIES - tries, ok == 0
      {
        child, ok, cands := MutateTry(parent, tries, old(drawn), cands, child);
        tries := tries + 1;
      }
    }

    /** The axis's value in the parent that a coin decides on. */
    method ParentValue(a: string, b: string, axis: string) returns (v: string)
      requires Valid()
      modifies this
      ensures v == GetAxis(if random(old(drawn)) % 2 == 1 then b else a, axis) && drawn == old(drawn) + 1
    {
      var coin := Random(2);
      v := GetAxis(if coin == 1 then b else a, axis);
    }

    method CrossAxis(a: string, b: string, cand: string, i: nat, ghost es: seq<Entry>, ghost p: nat)
      returns (more: string)
      requires Valid() && i < |axes| && es == Draws().Crossed(a, b, p) && cand == Encode(es[..i], '=') && drawn == p + i
      modifies this
      ensures more == Encode(es[..i + 1], '=') && drawn == old(drawn) + 1
    {
      var axis := AxisName(i);
      var v := ParentValue(a, b, axis);
      CrossedAt(Draws(), a, b, p, i);
      NextAxis(es, i, Entry(axis, v));
      more := Extended(cand, i, axis, v, es[..i]);
    }

    method CrossOnce(a: string, b: string) returns (cand: string)
      requires Valid()
      modifies this
      ensures cand == Encode(Draws().Crossed(a, b, old(drawn)), '=') && drawn == old(drawn) + |axes|
    {
      var n := CountAxes();
      cand := "";
      ghost var es := Draws().Crossed(a, b, drawn);
      for i := 0 to n
        invariant drawn == old(drawn) + i && cand == Encode(es[..i], '=')
      {
        cand := CrossAxis(a, b, cand, i, es, old(drawn));
      }
      assert es[..n] == es;
    }

    ghost predicate Crossing(a: string, b: string, p: nat, cands: seq<string>, last: string, ok: int)
      reads this
    {
      Valid() && Trying(cands, rules, last, ok) && CrossesSoFar(Draws(), a, b, p, cands, drawn)
    }

    /** One more try, and whether to stop. */
    method CrossTry(a: string, b: string, tries: nat, ghost p: nat, ghost cands: seq<string>, ghost last: string)
      returns (child: string, ok: int, ghost more: seq<string>)
      requires Crossing(a, b, p, cands, last, 0) && |cands| == tries
      modifies this
      ensures Crossing(a, b, p, more, child, ok) && |more| == tries + 1
    {
      NextCross(Draws(), a, b, p, cands, drawn);
      child := CrossOnce(a, b);
      ok := IsCoherent(child);
      NextTry(cands, rules, last, child, ok);
      more := cands + [child];
      if tries + 1 >= TRIES {
        ok := 1;
      }
    }

    /** A genome that takes every axis from one parent or the other: the first coherent one of fifty, or
        the fiftieth. */
    method Cross(a: string, b: string) returns (child: string, ghost cands: seq<string>)
      requires Valid()
      modifies this
      ensures 1 <= |cands| <= 50 && child == cands[|cands| - 1] && (|cands| < 50 ==> Coherent(rules, child))
      ensures forall t :: 0 <= t < |cands| - 1 ==> !Coherent(rules, cands[t])
      ensures cands == Draws().CrossTries(a, b, old(drawn), |cands|)
    {
      child, cands := a, [];
      var tries, ok := 0, 0;
      while ok == 0
        invariant Crossing(a, b, old(drawn), cands, child, ok) && |cands| == tries
        decreases TRIES - tries, ok == 0
      {
        child, ok, cands := CrossTry(a, b, tries, old(drawn), cands, child);
        tries := tries + 1;
      }
    }
  }

  lemma TableRow(axes: seq<string>, values: seq<seq<string>>, k: nat)
    requires Schema(axes, values) && k < |axes|
    ensures Field(Encode(TableOf(axes, values), ':'), axes[k] + ":") == Csv(values[k])
  {
    assert axes[k] in NameSet(axes);
    FieldIsGet(TableOf(axes, values), NameSet(axes), ':', axes[k]);
    assert TableOf(axes, values)[k] == Entry(axes[k], Csv(values[k]));
    GetAt(TableOf(axes, values), k);
  }

  // ----- every choice can be drawn -----

  function PlaceOf(vs: seq<string>, v: string): (i: nat)
    requires v in vs
    ensures i < |vs| && vs[i] == v
  {
    if vs[0] == v then 0 else 1 + PlaceOf(vs[1..], v)
  }

  /** Every genome with allowed values is drawn for some random numbers. */
  lemma SeedsAll(axes: seq<string>, values: seq<seq<string>>, es: seq<Entry>, p: nat) returns (random: nat -> nat)
    requires Schema(axes, values) && Lists(es, axes) && forall k :: 0 <= k < |axes| ==> es[k].value in values[k]
    ensures Source(axes, values, random).Seeded(p) == es
  {
    var places := seq(|axes|, k requires 0 <= k < |axes| => PlaceOf(values[k], es[k].value));
    random := Numbers(places, p);
    var d := Source(axes, values, random);
    forall k | 0 <= k < |axes|
      ensures d.Seeded(p)[k] == es[k]
    {
      SeededAt(d, p, k);
      PickIs(d, k, p + k, places[k]);
    }
  }

  lemma PickIs(d: Source, k: nat, q: nat, i: nat)
    requires k < |d.values| && i < |d.values[k]| && d.random(q) == i
    ensures d.Pick(k, q) == d.values[k][i]
  {
  }

  lemma PickAllowed(d: Source, k: nat, q: nat)
    requires k < |d.values| && d.values[k] != []
    ensures d.Pick(k, q) in d.values[k]
  {
  }

  /** Random numbers with given ones from position p on. */
  function Numbers(ns: seq<nat>, p: nat): nat -> nat {
    (i: nat) => if p <= i < p + |ns| then ns[i - p] else 0
  }

  /** Every axis can be mutated to every allowed value. */
  lemma MutatesAll(axes: seq<string>, values: seq<seq<string>>, parent: string, k: nat, v: string, p: nat)
    returns (random: nat -> nat)
    requires Schema(axes, values) && k < |axes| && v in values[k]
    ensures Source(axes, values, random).Mutated(parent, p) == SetAxis(parent, axes[k], v)
  {
    var i := PlaceOf(values[k], v);
    random := (n: nat) => if n == p then k else i;
    var d := Source(axes, values, random);
    PickIs(d, k, p + 1, i);
    MutatedIs(d, parent, p, k);
  }

  lemma MutatedIs(d: Source, parent: string, p: nat, k: nat)
    requires Schema(d.axes, d.values) && k < |d.axes| && d.random(p) == k
    ensures d.Mutated(parent, p) == SetAxis(parent, d.axes[k], d.Pick(k, p + 1))
  {
    assert k % |d.axes| == k;
  }

  /** Every axis can be taken from either parent, whatever the others are taken from. */
  lemma CrossesAll(axes: seq<string>, values: seq<seq<string>>, a: string, b: string, second: seq<bool>, p: nat)
    returns (random: nat -> nat)
    requires |second| == |axes|
    ensures var es := Source(axes, values, random).Crossed(a, b, p);
            && |es| == |axes|
            && forall k :: 0 <= k < |axes| ==> es[k] == Entry(axes[k], GetAxis(if second[k] then b else a, axes[k]))
  {
    random := (n: nat) => if p <= n < p + |axes| && second[n - p] then 1 else 0;
    var d := Source(axes, values, random);
    forall k | 0 <= k < |axes|
      ensures d.Crossed(a, b, p)[k] == Entry(axes[k], GetAxis(if second[k] then b else a, axes[k]))
    {
      CrossedAt(d, a, b, p, k);
      assert random(p + k) == if second[k] then 1 else 0;
    }
  }

  // ----- what the operators do to genomes -----

  /** Seeding: every axis reads as one of its allowed values. */
  lemma SeedAllowed(axes: seq<string>, values: seq<seq<string>>, es: seq<Entry>, k: nat)
    requires Schema(axes, values) && Lists(es, axes) && (forall j :: 0 <= j < |axes| ==> es[j].value in values[j])
          && k < |axes|
    ensures GetAxis(Encode(es, '='), axes[k]) in values[k]
  {
    assert forall j :: 0 <= j < |es| ==> es[j].name in NameSet(axes);
    AxisOf(es, axes, k);
  }

  lemma SeededAllowed(d: Source, p: nat, k: nat)
    requires Schema(d.axes, d.values) && k < |d.axes|
    ensures GetAxis(Encode(d.Seeded(p), '='), d.axes[k]) in d.values[k]
  {
    var es := d.Seeded(p);
    forall j | 0 <= j < |d.axes|
      ensures es[j].value in d.values[j]
    {
      SeededAt(d, p, j);
      PickAllowed(d, j, p + j);
    }
    SeedAllowed(d.axes, d.values, es, k);
  }

  /** Each try draws behind the numbers of the tries before. */
  lemma {:induction false} TryAt(d: Source, p: nat, tries: nat, t: nat)
    requires Schema(d.axes, d.values) && t < tries
    ensures d.SeedTries(p, tries)[t] == Encode(d.Seeded(p + t * |d.axes|), '=')
  {
    if t == tries - 1 {
      AfterIs(d, p, t, |d.axes|);
    } else {
      TryAt(d, p, tries - 1, t);
    }
  }

  lemma {:induction false} AfterIs(d: Source, p: nat, tries: nat, step: nat)
    ensures d.After(p, tries, step) == p + tries * step
  {
    if tries > 0 {
      AfterIs(d, p, tries - 1, step);
    }
  }

  /** Mutation: the chosen axis reads as the new value, all others as in the parent. */
  lemma MutateChangesOne(axes: seq<string>, values: seq<seq<string>>, es: seq<Entry>, k: nat, v: string, other: nat)
    requires Schema(axes, values) && Sound(es, NameSet(axes), '=') && k < |axes| && v in values[k] && other < |axes|
    ensures GetAxis(SetAxis(Encode(es, '='), axes[k], v), axes[other])
         == if other == k then v else GetAxis(Encode(es, '='), axes[other])
  {
    assert axes[k] in NameSet(axes) && axes[other] in NameSet(axes);
    SetThenGet(es, NameSet(axes), axes[k], v, axes[other]);
  }

  /** Crossover: every axis of the child reads as in one of its parents. */
  lemma CrossFromParents(axes: seq<string>, values: seq<seq<string>>, xs: seq<Entry>, ys: seq<Entry>, es: seq<Entry>,
                         k: nat)
    requires Schema(axes, values) && Sound(xs, NameSet(axes), '=') && Sound(ys, NameSet(axes), '=') && Lists(es, axes)
    requires var a, b := Encode(xs, '='), Encode(ys, '=');
             forall j :: 0 <= j < |axes| ==> es[j].value == GetAxis(a, axes[j]) || es[j].value == GetAxis(b, axes[j])
    requires k < |axes|
    ensures var a, b, child := Encode(xs, '='), Encode(ys, '='), Encode(es, '=');
            GetAxis(child, axes[k]) == GetAxis(a, axes[k]) || GetAxis(child, axes[k]) == GetAxis(b, axes[k])
  {
    forall j | 0 <= j < |es|
      ensures es[j].name in NameSet(axes) && Plain(es[j].value, '=')
    {
      assert axes[j] in NameSet(axes);
      ParentPlain(xs, NameSet(axes), axes[j]);
      ParentPlain(ys, NameSet(axes), axes[j]);
    }
    AxisOf(es, axes, k);
  }

  lemma ParentPlain(es: seq<Entry>, names: set<string>, name: string)
    requires Sound(es, names, '=') && name in names
    ensures Plain(GetAxis(Encode(es, '='), name), '=')
  {
    FieldIsGet(es, names, '=', name);
    GetAxisIsField(Encode(es, '='), name);
    GetPlain(es, '=', name);
  }
}

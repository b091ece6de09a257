/** Coherence rules compiled to a flag-and-nested-if method, and what running that method means. */
module Coherence {
  import opened Wrappers
  import opened Collections
  import opened Aipl

  // ----- rules and their meaning -----

  /** A rule's dictionaries as their entries in order. */
  datatype Rule = Rule(
    conds: seq<(string, string)>,
    thenEq: seq<(string, string)>,
    thenIn: seq<(string, seq<string>)>,
    thenNot: seq<(string, string)>,
    thenMin: seq<(string, string)>)

  predicate Skipped(r: Rule) {
    r.conds == [] || (r.thenEq == [] && r.thenIn == [])
  }

  /** The value of an axis in a genome string of the form axis=value|axis=value; empty if absent. */
  function GetAxis(genome: string, axis: string): string {
    var key := axis + "=";
    var at := Index(genome, key);
    if at < 0 then ""
    else
      var rest := genome[at + |key|..];
      var bar := Index(rest, "|");
      if bar < 0 then rest else rest[..bar]
  }

  predicate Allowed(r: Rule, v: string)
    requires !Skipped(r)
  {
    if r.thenEq != [] then v == r.thenEq[0].1 else v in r.thenIn[0].1
  }

  function ThenAxis(r: Rule): string
    requires !Skipped(r)
  {
    if r.thenEq != [] then r.thenEq[0].0 else r.thenIn[0].0
  }

  /** If the genome matches the rule's first condition, its then axis is absent, empty or allowed. */
  predicate Holds(r: Rule, genome: string) {
    Skipped(r) ||
    (GetAxis(genome, r.conds[0].0) == r.conds[0].1 ==>
       var v := GetAxis(genome, ThenAxis(r));
       v == "" || Allowed(r, v))
  }

  predicate Coherent(rules: seq<Rule>, genome: string) {
    forall k :: 0 <= k < |rules| ==> Holds(rules[k], genome)
  }

  /** What a rule asks for, entry by entry: only its first condition and its first requirement count, a
      single value before a list of values, and rules without either never fail. */
  lemma FirstEntriesCount(r: Rule, genome: string, a: string, v: string, b: string, w: string, ws: seq<string>)
    ensures r.conds == [] || (r.thenEq == [] && r.thenIn == []) ==> Holds(r, genome)
    ensures r.conds != [] && r.conds[0] == (a, v) && r.thenEq != [] && r.thenEq[0] == (b, w) ==>
              (Holds(r, genome) <==> (GetAxis(genome, a) == v ==> GetAxis(genome, b) in {"", w}))
    ensures r.conds != [] && r.conds[0] == (a, v) && r.thenEq == [] && r.thenIn != [] && r.thenIn[0] == (b, ws) ==>
              (Holds(r, genome) <==> (GetAxis(genome, a) == v ==> GetAxis(genome, b) in [""] + ws))
  {
  }

  // ----- the names the compiler makes up -----

  datatype Side = A | B

  datatype Part = Whole | Key | At | Rest | Bar

  datatype Name = Genome | Ok | InSet | Local(side: Side, rule: nat, part: Part)

  // ----- the compiler -----

  type Code = seq<Stmt<Name>>

  /** Cuts the rest of the genome at its first separator, if it has one. */
  function CutCode(side: Side, k: nat): Stmt<Name> {
    var out, rest, bar := Local(side, k, Whole), Local(side, k, Rest), Local(side, k, Bar);
    If(Lt(Var(bar), IntLit(0)), [Assign(out, Var(rest))], [Assign(out, StrSub(Var(rest), IntLit(0), Var(bar)))])
  }

  function ScanCode(side: Side, k: nat): Code {
    var key, at, rest, bar := Local(side, k, Key), Local(side, k, At), Local(side, k, Rest), Local(side, k, Bar);
    [VarDecl(rest, StrFrom(Var(Genome), Plus(Var(at), StrLen(Var(key)))))]
    + ([VarDecl(bar, StrIndex(Var(rest), StrLit("|")))]
    + [CutCode(side, k)])
  }

  /** Reads an axis of the genome into the out variable. */
  function GetAxisBlock(axis: string, side: Side, k: nat): Code {
    var out, key, at := Local(side, k, Whole), Local(side, k, Key), Local(side, k, At);
    [VarDecl(key, StrLit(axis + "="))]
    + ([VarDecl(at, StrIndex(Var(Genome), Var(key)))]
    + ([VarDecl(out, StrLit(""))]
    + [If(Ge(Var(at), IntLit(0)), ScanCode(side, k), [])]))
  }

  function MatchAny(out: Name, vals: seq<string>): Code {
    if vals == [] then []
    else MatchAny(out, vals[..|vals| - 1]) + [If(Eq(Var(out), StrLit(vals[|vals| - 1])), [Assign(InSet, IntLit(1))],
          [])]
  }

  function FailCode(): Code {
    [Assign(Ok, IntLit(0))]
  }

  function Verdict(r: Rule, out: Name): Code
    requires !Skipped(r)
  {
    if r.thenEq != [] then [If(Ne(Var(out), StrLit(r.thenEq[0].1)), FailCode(), [])]
    else [VarDecl(InSet, IntLit(0))] + MatchAny(out, r.thenIn[0].1) + [If(Eq(Var(InSet), IntLit(0)), FailCode(), [])]
  }

  /** The check of the then axis, made when the first condition matches. */
  function ThenCode(r: Rule, k: nat): Code
    requires !Skipped(r)
  {
    var out := Local(B, k, Whole);
    GetAxisBlock(ThenAxis(r), B, k) + [If(Ne(Var(out), StrLit("")), Verdict(r, out), [])]
  }

  function RuleCode(r: Rule, k: nat): Code {
    if Skipped(r) then []
    else
      GetAxisBlock(r.conds[0].0, A, k)
      + [If(Eq(Var(Local(A, k, Whole)), StrLit(r.conds[0].1)), ThenCode(r, k), [])]
  }

  function RulesCode(rules: seq<Rule>): Code {
    if rules == [] then []
    else RulesCode(rules[..|rules| - 1]) + RuleCode(rules[|rules| - 1], |rules| - 1)
  }

  function IsCoherentMethod(rules: seq<Rule>): Code {
    [VarDecl(Ok, IntLit(1))] + RulesCode(rules) + [Reply(Var(Ok))]
  }

  lemma EmitStep(rules: seq<Rule>, k: nat, lines: Code)
    requires k < |rules| && lines == [VarDecl(Ok, IntLit(1))] + RulesCode(rules[..k])
    ensures lines + RuleCode(rules[k], k) == [VarDecl(Ok, IntLit(1))] + RulesCode(rules[..k + 1])
  {
    assert rules[..k + 1][..k] == rules[..k];
    Regroup([VarDecl(Ok, IntLit(1))], RulesCode(rules[..k]), RuleCode(rules[k], k));
  }

  /** The emitter walks over the rules and appends each one's lines. */
  method EmitIsCoherent(rules: seq<Rule>) returns (lines: Code)
    ensures lines == IsCoherentMethod(rules)
  {
    lines := [VarDecl(Ok, IntLit(1))];
    for k := 0 to |rules|
      invariant lines == [VarDecl(Ok, IntLit(1))] + RulesCode(rules[..k])
    {
      EmitStep(rules, k, lines);
      if Skipped(rules[k]) {
        assert lines + [] == lines;
        continue;
      }
      lines := lines + RuleCode(rules[k], k);
    }
    assert rules[..|rules|] == rules;
    lines := lines + [Reply(Var(Ok))];
  }

  // ----- running one block that reads an axis -----

  /** What reading an axis leaves in the innermost scope. */
  function Read(m: map<Name, Value>, genome: string, axis: string, side: Side, k: nat): map<Name, Value> {
    m[Local(side, k, Key) := Str(axis + "=")]
     [Local(side, k, At) := Num(Index(genome, axis + "="))]
     [Local(side, k, Whole) := Str(GetAxis(genome, axis))]
  }

  /** Assigning a name of an outer scope from inside two further scopes. */
  lemma AssignOuter(inner: map<Name, Value>, m: map<Name, Value>, outer: Frames<Name>, x: Name, v: Value)
    requires x !in inner && x in m
    ensures Assigned([map[]] + ([inner] + ([m] + outer)), x, v) == [map[]] + ([inner] + ([m[x := v]] + outer))
  {
    AssignHere(m, outer, x, v);
    AssignPast(inner, [m] + outer, x, v);
    AssignPast(map[], [inner] + ([m] + outer), x, v);
  }

  // The scopes inside a block are written as the block's own scope in front of the outer ones.

  /** The rest of the genome after the key, and where its separator is. */
  function Tail(genome: string, axis: string): string
    requires Index(genome, axis + "=") >= 0
  {
    genome[Index(genome, axis + "=") + |axis + "="|..]
  }

  function Scan(genome: string, axis: string, side: Side, k: nat): map<Name, Value>
    requires Index(genome, axis + "=") >= 0
  {
    map[Local(side, k, Rest) := Str(Tail(genome, axis)), Local(side, k, Bar) := Num(Index(Tail(genome, axis), "|"))]
  }

  lemma RunCut(genome: string, axis: string, side: Side, k: nat, m: map<Name, Value>, outer: Frames<Name>,
               reply: Option<Value>)
    requires Index(genome, axis + "=") >= 0 && Local(side, k, Whole) in m
    ensures Exec(CutCode(side, k), Aipl.State([Scan(genome, axis, side, k)] + ([m] + outer), reply))
         == Some(Aipl.State([Scan(genome, axis, side, k)] + ([m[Local(side, k, Whole) := Str(GetAxis(genome,
               axis))]] + outer), reply))
  {
    var inner, tail := Scan(genome, axis, side, k), Tail(genome, axis);
    var out, rest, bar := Local(side, k, Whole), Local(side, k, Rest), Local(side, k, Bar);
    var fs, after := [inner] + ([m] + outer), [inner] + ([m[out := Str(GetAxis(genome, axis))]] + outer);
    LookupPast(inner, [m] + outer, bar);
    LookupPast(inner, [m] + outer, rest);
    LookupPast(map[], fs, rest);
    LookupPast(map[], fs, bar);
    AssignOuter(inner, m, outer, out, Str(GetAxis(genome, axis)));
    var st := Aipl.State([map[]] + fs, reply);
    var whole, cut: Stmt<Name> := Assign(out, Var(rest)), Assign(out, StrSub(Var(rest), IntLit(0), Var(bar)));
    assert Eval(Lt(Var(bar), IntLit(0)), fs) == Some(Bool(Index(tail, "|") < 0));
    assert Eval(whole.e, st.frames) == Some(Str(tail));
    if Index(tail, "|") < 0 {
      assert tail == GetAxis(genome, axis);
      One(whole, st);
      BlockIs([whole], fs, reply, map[], after, reply);
    } else {
      assert Slice(tail, 0, Index(tail, "|")) == tail[..Index(tail, "|")];
      assert Eval(Var(bar), st.frames) == Some(Num(Index(tail, "|")));
      assert Eval(IntLit(0), st.frames) == Some(Num(0));
      assert Eval(cut.e, st.frames) == Some(Str(GetAxis(genome, axis)));
      One(cut, st);
      BlockIs([cut], fs, reply, map[], after, reply);
    }
    BranchIs(Lt(Var(bar), IntLit(0)), Index(tail, "|") < 0, [whole], [cut], Aipl.State(fs, reply), Aipl.State(after,
          reply));
  }

  /** The block entered when the key was found. */
  lemma RunScan(genome: string, axis: string, side: Side, k: nat, m: map<Name, Value>, outer: Frames<Name>,
                reply: Option<Value>)
    requires Lookup([m] + outer, Genome) == Some(Str(genome)) && Index(genome, axis + "=") >= 0
    requires Local(side, k, Whole) in m
    requires Lookup([m] + outer, Local(side, k, Key)) == Some(Str(axis + "="))
    requires Lookup([m] + outer, Local(side, k, At)) == Some(Num(Index(genome, axis + "=")))
    ensures Block(ScanCode(side, k), Aipl.State([m] + outer, reply))
         == Some(Aipl.State([m[Local(side, k, Whole) := Str(GetAxis(genome, axis))]] + outer, reply))
  {
    var key, at, rest, bar := Local(side, k, Key), Local(side, k, At), Local(side, k, Rest), Local(side, k, Bar);
    var fs, idx, tail := [m] + outer, Index(genome, axis + "="), Tail(genome, axis);
    var start := Plus(Var(at), StrLen(Var(key)));
    LookupPast(map[], fs, Genome);
    LookupPast(map[], fs, key);
    LookupPast(map[], fs, at);
    assert Eval(StrLen(Var(key)), [map[]] + fs) == Some(Num(|axis + "="|));
    assert Eval(start, [map[]] + fs) == Some(Num(idx + |axis + "="|));
    assert Eval(StrFrom(Var(Genome), start), [map[]] + fs) == Some(Str(tail));
    DeclareFirst(rest, StrFrom(Var(Genome), start), Str(tail),
                 [VarDecl(bar, StrIndex(Var(rest), StrLit("|")))] + [CutCode(side, k)], map[], fs, reply);
    var one := map[rest := Str(tail)];
    LookupPast(one, fs, rest);
    assert Eval(StrIndex(Var(rest), StrLit("|")), [one] + fs) == Some(Num(Index(tail, "|")));
    DeclareFirst(bar, StrIndex(Var(rest), StrLit("|")), Num(Index(tail, "|")), [CutCode(side, k)], one, fs, reply);
    assert one[bar := Num(Index(tail, "|"))] == Scan(genome, axis, side, k);
    One(CutCode(side, k), Aipl.State([Scan(genome, axis, side, k)] + fs, reply));
    RunCut(genome, axis, side, k, m, outer, reply);
    BlockIs(ScanCode(side, k), fs, reply, Scan(genome, axis, side, k),
            [m[Local(side, k, Whole) := Str(GetAxis(genome, axis))]] + outer, reply);
  }

  lemma RunWhenFound(genome: string, axis: string, side: Side, k: nat, m: map<Name, Value>, outer: Frames<Name>,
                     reply: Option<Value>)
    requires Lookup([m] + outer, Genome) == Some(Str(genome))
    requires Local(side, k, Whole) in m && m[Local(side, k, Whole)] == Str("")
    requires Lookup([m] + outer, Local(side, k, Key)) == Some(Str(axis + "="))
    requires Lookup([m] + outer, Local(side, k, At)) == Some(Num(Index(genome, axis + "=")))
    ensures Exec(If(Ge(Var(Local(side, k, At)), IntLit(0)), ScanCode(side, k), []), Aipl.State([m] + outer, reply))
         == Some(Aipl.State([m[Local(side, k, Whole) := Str(GetAxis(genome, axis))]] + outer, reply))
  {
    var found: Expr<Name> := Ge(Var(Local(side, k, At)), IntLit(0));
    assert Eval(found, [m] + outer) == Some(Bool(Index(genome, axis + "=") >= 0));
    if Index(genome, axis + "=") >= 0 {
      RunScan(genome, axis, side, k, m, outer, reply);
    } else {
      BlockIs([], [m] + outer, reply, map[], [m] + outer, reply);
      assert m[Local(side, k, Whole) := Str("")] == m;
    }
  }

  /** Reading an axis leaves its value in the out variable, and touches nothing but its own names. */
  lemma RunGetAxis(genome: string, axis: string, side: Side, k: nat, m: map<Name, Value>, outer: Frames<Name>,
                   reply: Option<Value>)
    requires Lookup([m] + outer, Genome) == Some(Str(genome))
    ensures ExecAll(GetAxisBlock(axis, side, k), Aipl.State([m] + outer, reply))
         == Some(Aipl.State([Read(m, genome, axis, side, k)] + outer, reply))
  {
    var key, at, out := Local(side, k, Key), Local(side, k, At), Local(side, k, Whole);
    var idx := Index(genome, axis + "=");
    var m1 := m[key := Str(axis + "=")];
    var m2 := m1[at := Num(idx)];
    var m3 := m2[out := Str("")];
    var last: Stmt<Name> := If(Ge(Var(at), IntLit(0)), ScanCode(side, k), []);
    LookupPast(m, outer, Genome);
    LookupPast(m1, outer, Genome);
    LookupPast(m1, outer, key);
    LookupPast(m3, outer, Genome);
    LookupPast(m3, outer, key);
    LookupPast(m3, outer, at);
    var blank: Code := [VarDecl(out, StrLit(""))] + [last];
    var find: Code := [VarDecl(at, StrIndex(Var(Genome), Var(key)))] + blank;
    DeclareFirst(key, StrLit(axis + "="), Str(axis + "="), find, m, outer, reply);
    DeclareFirst(at, StrIndex(Var(Genome), Var(key)), Num(idx), blank, m1, outer, reply);
    DeclareFirst(out, StrLit(""), Str(""), [last], m2, outer, reply);
    One(last, Aipl.State([m3] + outer, reply));
    RunWhenFound(genome, axis, side, k, m3, outer, reply);
    assert m3[out := Str(GetAxis(genome, axis))] == Read(m, genome, axis, side, k);
  }

  // ----- running one rule -----

  function Failed(m: map<Name, Value>, ok: bool): map<Name, Value> {
    if ok then m else m[Ok := Num(0)]
  }

  /** The branch that clears the flag, taken or not, two scopes inside the flag's scope. */
  lemma RunFail(c: Expr<Name>, fail: bool, own: map<Name, Value>, inner: map<Name, Value>, m: map<Name, Value>,
                outer: Frames<Name>, reply: Option<Value>)
    requires Ok !in own && Ok !in inner && Ok in m
    requires Eval(c, [own] + ([inner] + ([m] + outer))) == Some(Bool(fail))
    ensures Exec(If(c, FailCode(), []), Aipl.State([own] + ([inner] + ([m] + outer)), reply))
         == Some(Aipl.State([own] + ([inner] + ([Failed(m, !fail)] + outer)), reply))
  {
    var fs := [own] + ([inner] + ([m] + outer));
    var after := [own] + ([inner] + ([Failed(m, !fail)] + outer));
    if fail {
      AssignHere(m, outer, Ok, Num(0));
      AssignPast(inner, [m] + outer, Ok, Num(0));
      AssignPast(own, [inner] + ([m] + outer), Ok, Num(0));
      AssignPast(map[], fs, Ok, Num(0));
      One(Assign(Ok, IntLit(0)), Aipl.State([map[]] + fs, reply));
      BlockIs(FailCode(), fs, reply, map[], after, reply);
    } else {
      BlockIs([], fs, reply, map[], fs, reply);
    }
  }

  /** Matching the allowed values one by one sets in_set exactly if one of them is the value. */
  lemma {:induction false} RunMatchAny(out: Name, v: string, vals: seq<string>, fs: Frames<Name>, reply: Option<Value>)
    requires Lookup(fs, out) == Some(Str(v)) && out != InSet && fs != []
    ensures ExecAll(MatchAny(out, vals), Aipl.State([map[InSet := Num(0)]] + fs, reply))
         == Some(Aipl.State([map[InSet := Num(if v in vals then 1 else 0)]] + fs, reply))
  {
    if vals != [] {
      var n := |vals| - 1;
      var front, val := vals[..n], vals[n];
      assert vals == front + [val];
      RunMatchAny(out, v, front, fs, reply);
      var own: map<Name, Value> := map[InSet := Num(if v in front then 1 else 0)];
      var test: Stmt<Name> := If(Eq(Var(out), StrLit(val)), [Assign(InSet, IntLit(1))], []);
      ExecAppend(MatchAny(out, front), [test], Aipl.State([map[InSet := Num(0)]] + fs, reply));
      One(test, Aipl.State([own] + fs, reply));
      RunTest(out, v, val, own, fs, reply);
    }
  }

  lemma RunTest(out: Name, v: string, val: string, own: map<Name, Value>, fs: Frames<Name>, reply: Option<Value>)
    requires Lookup(fs, out) == Some(Str(v)) && fs != [] && own.Keys == {InSet} && out != InSet
    ensures Exec(If(Eq(Var(out), StrLit(val)), [Assign(InSet, IntLit(1))], []), Aipl.State([own] + fs, reply))
         == Some(Aipl.State([if v == val then map[InSet := Num(1)] else own] + fs, reply))
  {
    LookupPast(own, fs, out);
    assert Eval(Eq(Var(out), StrLit(val)), [own] + fs) == Some(Bool(v == val));
    if v == val {
      assert own[InSet := Num(1)] == map[InSet := Num(1)];
      AssignHere(own, fs, InSet, Num(1));
      AssignPast(map[], [own] + fs, InSet, Num(1));
      One(Assign(InSet, IntLit(1)), Aipl.State([map[]] + ([own] + fs), reply));
      BlockIs([Assign(InSet, IntLit(1))], [own] + fs, reply, map[], [map[InSet := Num(1)]] + fs, reply);
    } else {
      BlockIs([], [own] + fs, reply, map[], [own] + fs, reply);
    }
  }

  /** The check of a then axis that has a value: the flag is cleared exactly if it is not allowed. */
  lemma RunVerdict(r: Rule, k: nat, v: string, inner: map<Name, Value>, m: map<Name, Value>, outer: Frames<Name>,
                   reply: Option<Value>)
    requires !Skipped(r) && Ok !in inner && Ok in m
    requires Local(B, k, Whole) in inner && inner[Local(B, k, Whole)] == Str(v)
    ensures Block(Verdict(r, Local(B, k, Whole)), Aipl.State([inner] + ([m] + outer), reply))
         == Some(Aipl.State([inner] + ([Failed(m, Allowed(r, v))] + outer), reply))
  {
    var out := Local(B, k, Whole);
    var fs, after := [inner] + ([m] + outer), [inner] + ([Failed(m, Allowed(r, v))] + outer);
    LookupPast(inner, [m] + outer, out);
    if r.thenEq != [] {
      var c: Expr<Name> := Ne(Var(out), StrLit(r.thenEq[0].1));
      LookupPast(map[], fs, out);
      assert Eval(c, [map[]] + fs) == Some(Bool(v != r.thenEq[0].1));
      RunFail(c, v != r.thenEq[0].1, map[], inner, m, outer, reply);
      One(If(c, FailCode(), []), Aipl.State([map[]] + fs, reply));
      BlockIs(Verdict(r, out), fs, reply, map[], after, reply);
    } else {
      RunVerdictIn(r.thenIn[0].1, out, v, inner, m, outer, reply);
    }
  }

  lemma RunVerdictIn(vals: seq<string>, out: Name, v: string, inner: map<Name, Value>, m: map<Name, Value>,
                     outer: Frames<Name>, reply: Option<Value>)
    requires Ok !in inner && Ok in m && out != InSet && out in inner && inner[out] == Str(v)
    ensures Block([VarDecl(InSet, IntLit(0))] + MatchAny(out, vals) + [If(Eq(Var(InSet), IntLit(0)), FailCode(), [])],
                  Aipl.State([inner] + ([m] + outer), reply))
         == Some(Aipl.State([inner] + ([Failed(m, v in vals)] + outer), reply))
  {
    var fs, after := [inner] + ([m] + outer), [inner] + ([Failed(m, v in vals)] + outer);
    var start, own: map<Name, Value> := map[InSet := Num(0)], map[InSet := Num(if v in vals then 1 else 0)];
    var c: Expr<Name> := Eq(Var(InSet), IntLit(0));
    var last: Code := [If(c, FailCode(), [])];
    var body := [VarDecl(InSet, IntLit(0))] + MatchAny(out, vals) + last;
    assert body == [VarDecl(InSet, IntLit(0))] + (MatchAny(out, vals) + last);
    assert map[][InSet := Num(0)] == start;
    DeclareFirst(InSet, IntLit(0), Num(0), MatchAny(out, vals) + last, map[], fs, reply);
    LookupPast(inner, [m] + outer, out);
    RunMatchAny(out, v, vals, fs, reply);
    ExecAppend(MatchAny(out, vals), last, Aipl.State([start] + fs, reply));
    LookupPast(own, fs, InSet);
    assert Eval(c, [own] + fs) == Some(Bool(v !in vals));
    RunFail(c, v !in vals, own, inner, m, outer, reply);
    One(If(c, FailCode(), []), Aipl.State([own] + fs, reply));
    BlockIs(body, fs, reply, own, after, reply);
  }

  /** The then axis allows the rule: absent, empty or allowed. */
  predicate ThenHolds(r: Rule, genome: string)
    requires !Skipped(r)
  {
    var v := GetAxis(genome, ThenAxis(r));
    v == "" || Allowed(r, v)
  }

  lemma RunThen(r: Rule, k: nat, genome: string, m: map<Name, Value>, outer: Frames<Name>, reply: Option<Value>)
    requires !Skipped(r) && Ok in m && Lookup([m] + outer, Genome) == Some(Str(genome))
    ensures Block(ThenCode(r, k), Aipl.State([m] + outer, reply))
         == Some(Aipl.State([Failed(m, ThenHolds(r, genome))] + outer, reply))
  {
    var fs, after := [m] + outer, [Failed(m, ThenHolds(r, genome))] + outer;
    var out, v := Local(B, k, Whole), GetAxis(genome, ThenAxis(r));
    var own := Read(map[], genome, ThenAxis(r), B, k);
    var check: Stmt<Name> := If(Ne(Var(out), StrLit("")), Verdict(r, out), []);
    LookupPast(map[], fs, Genome);
    RunGetAxis(genome, ThenAxis(r), B, k, map[], fs, reply);
    ExecAppend(GetAxisBlock(ThenAxis(r), B, k), [check], Aipl.State([map[]] + fs, reply));
    One(check, Aipl.State([own] + fs, reply));
    LookupPast(own, fs, out);
    assert Eval(Ne(Var(out), StrLit("")), [own] + fs) == Some(Bool(v != ""));
    if v != "" {
      RunVerdict(r, k, v, own, m, outer, reply);
      BlockIs(ThenCode(r, k), fs, reply, own, after, reply);
    } else {
      BlockIs([], [own] + fs, reply, map[], [own] + fs, reply);
      BlockIs(ThenCode(r, k), fs, reply, own, after, reply);
    }
  }

  /** One rule's code leaves the flag alone if the genome satisfies the rule and clears it if not. */
  lemma RunRule(r: Rule, k: nat, genome: string, m: map<Name, Value>, outer: Frames<Name>, reply: Option<Value>)
    returns (after: map<Name, Value>)
    requires Ok in m && Genome !in m && Lookup(outer, Genome) == Some(Str(genome)) && outer != []
    ensures ExecAll(RuleCode(r, k), Aipl.State([m] + outer, reply)) == Some(Aipl.State([after] + outer, reply))
    ensures Ok in after && Genome !in after && after[Ok] == if Holds(r, genome) then m[Ok] else Num(0)
  {
    if Skipped(r) {
      after := m;
    } else {
      var a, axis, val := Local(A, k, Whole), r.conds[0].0, r.conds[0].1;
      var mid := Read(m, genome, axis, A, k);
      var check: Stmt<Name> := If(Eq(Var(a), StrLit(val)), ThenCode(r, k), []);
      LookupPast(m, outer, Genome);
      RunGetAxis(genome, axis, A, k, m, outer, reply);
      ExecAppend(GetAxisBlock(axis, A, k), [check], Aipl.State([m] + outer, reply));
      One(check, Aipl.State([mid] + outer, reply));
      LookupPast(mid, outer, a);
      LookupPast(mid, outer, Genome);
      assert Eval(Eq(Var(a), StrLit(val)), [mid] + outer) == Some(Bool(GetAxis(genome, axis) == val));
      if GetAxis(genome, axis) == val {
        RunThen(r, k, genome, mid, outer, reply);
        after := Failed(mid, ThenHolds(r, genome));
      } else {
        BlockIs([], [mid] + outer, reply, map[], [mid] + outer, reply);
        after := mid;
      }
    }
  }

  // ----- running the whole method -----

  lemma CoherentLast(rules: seq<Rule>, front: seq<Rule>, r: Rule, genome: string)
    requires rules == front + [r]
    ensures Coherent(rules, genome) <==> Coherent(front, genome) && Holds(r, genome)
  {
    if Coherent(rules, genome) {
      assert rules[|front|] == r;
      forall k | 0 <= k < |front|
        ensures Holds(front[k], genome)
      {
        assert rules[k] == front[k];
      }
    }
  }

  /** The code turns the innermost scope from m into after and touches nothing else. */
  ghost predicate Runs(code: Code, m: map<Name, Value>, outer: Frames<Name>, reply: Option<Value>, after: map<Name,
                       Value>) {
    ExecAll(code, Aipl.State([m] + outer, reply)) == Some(Aipl.State([after] + outer, reply))
  }

  lemma RunsBoth(xs: Code, ys: Code, m: map<Name, Value>, mid: map<Name, Value>, after: map<Name, Value>,
                 outer: Frames<Name>, reply: Option<Value>)
    requires Runs(xs, m, outer, reply, mid) && Runs(ys, mid, outer, reply, after)
    ensures Runs(xs + ys, m, outer, reply, after)
  {
    ExecAppend(xs, ys, Aipl.State([m] + outer, reply));
  }

  /** The flag after more rules have been checked. */
  lemma FlagAfter(rules: seq<Rule>, front: seq<Rule>, r: Rule, genome: string, before: Value, after: Value)
    requires rules == front + [r]
    requires before == Num(if Coherent(front, genome) then 1 else 0)
    requires after == if Holds(r, genome) then before else Num(0)
    ensures after == Num(if Coherent(rules, genome) then 1 else 0)
  {
    CoherentLast(rules, front, r, genome);
  }

  /** One rule more: what the code of the rules does, given what the code of those before does. */
  lemma RunsNext(rules: seq<Rule>, front: seq<Rule>, r: Rule, m: map<Name, Value>, mid: map<Name, Value>,
                 after: map<Name, Value>,
                 outer: Frames<Name>, reply: Option<Value>)
    requires rules == front + [r]
    requires Runs(RulesCode(front), m, outer, reply, mid) && Runs(RuleCode(r, |front|), mid, outer, reply, after)
    ensures Runs(RulesCode(rules), m, outer, reply, after)
  {
    assert rules[..|front|] == front;
    RunsBoth(RulesCode(front), RuleCode(r, |front|), m, mid, after, outer, reply);
  }

  lemma {:induction false} RunRules(rules: seq<Rule>, genome: string, m: map<Name, Value>, outer: Frames<Name>,
                                    reply: Option<Value>)
    returns (after: map<Name, Value>)
    requires Ok in m && m[Ok] == Num(1) && Genome !in m && Lookup(outer, Genome) == Some(Str(genome)) && outer != []
    ensures Runs(RulesCode(rules), m, outer, reply, after)
    ensures Ok in after && Genome !in after && after[Ok] == Num(if Coherent(rules, genome) then 1 else 0)
  {
    if rules == [] {
      after := m;
    } else {
      var n := |rules| - 1;
      var front, r := rules[..n], rules[n];
      assert rules == front + [r];
      var mid := RunRules(front, genome, m, outer, reply);
      after := RunRule(r, n, genome, mid, outer, reply);
      RunsNext(rules, front, r, m, mid, after, outer, reply);
      FlagAfter(rules, front, r, genome, mid[Ok], after[Ok]);
    }
  }

  /** The compiled method preserves the rules' meaning: called with any genome string, for any
      list of rules, it runs without error and replies 1 if the genome satisfies every rule and 0
      if not. */
  lemma MeaningPreserved(rules: seq<Rule>, genome: string)
    ensures var done := Call(IsCoherentMethod(rules), map[Genome := Str(genome)]);
            done.Some? && done.value.reply == Some(Num(if Coherent(rules, genome) then 1 else 0))
  {
    var outer: Frames<Name> := [map[Genome := Str(genome)]];
    var start: map<Name, Value> := map[Ok := Num(1)];
    var last: Code := [Reply(Var(Ok))];
    var body := IsCoherentMethod(rules);
    assert body == [VarDecl(Ok, IntLit(1))] + (RulesCode(rules) + last);
    assert map[][Ok := Num(1)] == start;
    DeclareFirst(Ok, IntLit(1), Num(1), RulesCode(rules) + last, map[], outer, None);
    var after := RunRules(rules, genome, start, outer, None);
    ExecAppend(RulesCode(rules), last, Aipl.State([start] + outer, None));
    LookupPast(after, outer, Ok);
    One(Reply(Var(Ok)), Aipl.State([after] + outer, None));
    BlockIs(body, outer, None, after, outer, Some(after[Ok]));
  }

  // ----- the names as text -----

  function Digit(d: nat): char
    requires d < 10
  {
    '0' + d as char
  }

  function Decimal(n: nat): (s: string)
    ensures s != [] && '0' <= s[|s| - 1] <= '9'
  {
    if n < 10 then [Digit(n)] else Decimal(n / 10) + [Digit(n % 10)]
  }

  function Suffix(p: Part): string {
    match p
    case Whole => ""
    case Key => "_k"
    case At => "_i"
    case Rest => "_r"
    case Bar => "_b"
  }

  /** The identifier as it stands in the emitted program. */
  function Text(x: Name): string {
    match x
    case Genome => "genome"
    case Ok => "ok"
    case InSet => "in_set"
    case Local(side, k, p) => [if side == A then 'a' else 'b'] + Decimal(k) + Suffix(p)
  }

  /** The emitted identifiers: a for a rule's condition and b for its requirement, the rule's number in
      decimal, and what the variable is for. */
  lemma Identifiers(k: nat, n: nat, d: nat)
    requires n > 0 && d < 10
    ensures Text(Genome) == "genome" && Text(Ok) == "ok" && Text(InSet) == "in_set"
    ensures Text(Local(A, k, Whole)) == "a" + Decimal(k) && Text(Local(B, k, Whole)) == "b" + Decimal(k)
    ensures Text(Local(A, k, Key)) == "a" + Decimal(k) + "_k" && Text(Local(B, k, At)) == "b" + Decimal(k) + "_i"
    ensures Text(Local(A, k, Rest)) == "a" + Decimal(k) + "_r" && Text(Local(B, k, Bar)) == "b" + Decimal(k) + "_b"
    ensures Decimal(d) == ["0123456789"[d]] && Decimal(10 * n + d) == Decimal(n) + ["0123456789"[d]]
  {
    assert (10 * n + d) / 10 == n && (10 * n + d) % 10 == d;
  }

  lemma {:induction false} DecimalInjective(m: nat, n: nat)
    requires Decimal(m) == Decimal(n)
    ensures m == n
  {
    var s := Decimal(m);
    assert s[|s| - 1] == Digit(m % 10) == Digit(n % 10);
    if m >= 10 && n >= 10 {
      assert Decimal(m / 10) == s[..|s| - 1] == Decimal(n / 10);
      DecimalInjective(m / 10, n / 10);
    }
  }

  /** The last character of a made-up name tells its part. */
  lemma LastTellsPart(x: Name)
    requires x.Local?
    ensures var s := Text(x);
            |s| >= 2 && s[|s| - 1] == match x.part case Whole => Decimal(x.rule)[|Decimal(x.rule)| - 1]
                                                   case Key => 'k' case At => 'i' case Rest => 'r' case Bar => 'b'
  {
  }

  lemma LocalTextInjective(x: Name, y: Name)
    requires x.Local? && y.Local? && Text(x) == Text(y)
    ensures x == y
  {
    LastTellsPart(x);
    LastTellsPart(y);
    assert x.part == y.part;
    var s, n := Text(x), |Suffix(x.part)|;
    assert s[0] == (if x.side == A then 'a' else 'b') && s[0] == if y.side == A then 'a' else 'b';
    assert s[1..|s| - n] == Decimal(x.rule);
    assert s[1..|s| - n] == Decimal(y.rule);
    DecimalInjective(x.rule, y.rule);
  }

  /** Different variables never get the same identifier: no rule's variables clash with another
      rule's, with each other, or with the genome, the flag and in_set. */
  lemma TextInjective(x: Name, y: Name)
    requires Text(x) == Text(y)
    ensures x == y
  {
    assert Text(x)[0] == Text(y)[0];
    if x.Local? && y.Local? {
      LocalTextInjective(x, y);
    }
  }
}

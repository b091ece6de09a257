/** The part of the AIPL language that generated programs without loops use: expressions over
    numbers and strings, nested scopes, assignment, branching and reply. */
module Aipl {
  import opened Wrappers

  datatype Value = Num(n: int) | Str(s: string) | Bool(b: bool)

  datatype Expr<N> =
    | IntLit(n: int)
    | StrLit(s: string)
    | Var(name: N)
    | Plus(l: Expr<N>, r: Expr<N>)
    | Eq(l: Expr<N>, r: Expr<N>)
    | Ne(l: Expr<N>, r: Expr<N>)
    | Lt(l: Expr<N>, r: Expr<N>)
    | Ge(l: Expr<N>, r: Expr<N>)
    | StrLen(e: Expr<N>)
    | StrIndex(h: Expr<N>, e: Expr<N>)
    | StrFrom(e: Expr<N>, start: Expr<N>)
    | StrSub(e: Expr<N>, start: Expr<N>, end: Expr<N>)

  datatype Stmt<N> =
    | VarDecl(name: N, e: Expr<N>)
    | Assign(name: N, e: Expr<N>)
    | If(cond: Expr<N>, thn: seq<Stmt<N>>, els: seq<Stmt<N>>)
    | Reply(e: Expr<N>)

  // ----- strings -----

  predicate OccursAt(h: string, n: string, i: nat) {
    i + |n| <= |h| && h[i..i + |n|] == n
  }

  /** First occurrence from position i on, or -1. */
  function IndexFrom(h: string, n: string, i: nat): (r: int)
    requires i <= |h|
    ensures r == -1 || i <= r <= |h| - |n|
    decreases |h| - i
  {
    if OccursAt(h, n, i) then i else if i == |h| then -1 else IndexFrom(h, n, i + 1)
  }

  function Index(h: string, n: string): (r: int)
    ensures r == -1 || 0 <= r <= |h| - |n|
  {
    IndexFrom(h, n, 0)
  }

  lemma {:induction false} IndexOccurs(h: string, n: string, i: nat)
    requires i <= |h| && IndexFrom(h, n, i) >= 0
    ensures OccursAt(h, n, IndexFrom(h, n, i))
    decreases |h| - i
  {
    if !OccursAt(h, n, i) {
      IndexOccurs(h, n, i + 1);
    }
  }

  /** No occurrence comes before the index, and none exists without one. */
  lemma {:induction false} IndexIsFirst(h: string, n: string, i: nat, j: nat)
    requires i <= j <= |h| && OccursAt(h, n, j)
    ensures i <= IndexFrom(h, n, i) <= j
    decreases |h| - i
  {
    if !OccursAt(h, n, i) {
      IndexIsFirst(h, n, i + 1, j);
    }
  }

  /** A slice bound: negative bounds count from the end, and bounds are cut to the string. */
  function Bound(s: string, i: int): nat {
    if i < 0 then (if |s| + i < 0 then 0 else |s| + i)
    else if i > |s| then |s| else i
  }

  function Slice(s: string, start: int, end: int): string {
    var a, b := Bound(s, start), Bound(s, end);
    if a <= b then s[a..b] else ""
  }

  /** A slice between two positions is what stands there, counted from the front or from the end. */
  lemma SliceBetween(a: string, b: string, c: string)
    ensures Slice(a + b + c, |a|, |a + b|) == b
    ensures c != "" ==> Slice(a + b + c, |a|, -|c|) == b
    ensures b + c != "" ==> Slice(a + b + c, -|b + c|, |a + b|) == b
  {
    assert a + b + c == a + (b + c);
    assert (a + b + c)[|a|..|a + b|] == b;
  }

  /** Bounds outside the string mean its ends, and nothing stands between bounds the wrong way round. */
  lemma SliceOutside(s: string, start: int, end: int)
    ensures start <= -|s| && end >= |s| ==> Slice(s, if s == "" then 0 else start, end) == s
    ensures start >= |s| || 0 <= end <= start ==> Slice(s, start, end) == ""
    ensures start < -|s| && end < -|s| ==> Slice(s, start, end) == ""
  {
    assert s[0..|s|] == s;
  }

  // ----- values -----

  function AsNum(v: Value): Option<int> {
    match v
    case Num(n) => Some(n)
    case Bool(b) => Some(if b then 1 else 0)
    case Str(_) => None
  }

  /** Numbers and truth values compare as numbers; a string equals strings only. */
  predicate Same(a: Value, b: Value) {
    if a.Str? || b.Str? then a == b else AsNum(a) == AsNum(b)
  }

  predicate Truthy(v: Value) {
    match v
    case Num(n) => n != 0
    case Str(s) => s != ""
    case Bool(b) => b
  }

  /** What equality means for each pair of kinds. */
  lemma SameValues(s: string, t: string, m: int, n: int, b: bool, v: Value)
    ensures Same(Str(s), Str(t)) <==> s == t
    ensures Same(Num(m), Num(n)) <==> m == n
    ensures Same(Bool(b), Num(n)) <==> n == (if b then 1 else 0)
    ensures !v.Str? ==> !Same(Str(s), v)
    ensures Same(v, Num(n)) <==> Same(Num(n), v)
  {
  }

  /** Everything is true but the empty string and what equals zero. */
  lemma TruthyIff(v: Value)
    ensures Truthy(v) <==> v != Str("") && !Same(v, Num(0))
  {
  }

  // ----- scopes -----

  /** Nested scopes, innermost first. */
  type Frames<!N> = seq<map<N, Value>>

  function Lookup<N(==)>(fs: Frames<N>, x: N): Option<Value> {
    if fs == [] then None else if x in fs[0] then Some(fs[0][x]) else Lookup(fs[1..], x)
  }

  predicate IsBound<N(==)>(fs: Frames<N>, x: N) {
    Lookup(fs, x).Some?
  }

  /** Assigns the nearest declaration. */
  function Update<N(==)>(fs: Frames<N>, x: N, v: Value): Frames<N> {
    if fs == [] then fs
    else if x in fs[0] then [fs[0][x := v]] + fs[1..]
    else [fs[0]] + Update(fs[1..], x, v)
  }

  /** An assignment to a name nobody declared declares it in the innermost scope. */
  function Assigned<N(==)>(fs: Frames<N>, x: N, v: Value): Frames<N>
    requires fs != []
  {
    if IsBound(fs, x) then Update(fs, x, v) else Declared(fs, x, v)
  }

  function Declared<N(==)>(fs: Frames<N>, x: N, v: Value): Frames<N>
    requires fs != []
  {
    [fs[0][x := v]] + fs[1..]
  }

  lemma LookupPast<N>(f: map<N, Value>, fs: Frames<N>, x: N)
    ensures Lookup([f] + fs, x) == if x in f then Some(f[x]) else Lookup(fs, x)
  {
    assert ([f] + fs)[1..] == fs;
  }

  lemma AssignPast<N>(f: map<N, Value>, fs: Frames<N>, x: N, v: Value)
    requires x !in f && IsBound(fs, x)
    ensures Assigned([f] + fs, x, v) == [f] + Assigned(fs, x, v) && IsBound([f] + fs, x)
  {
    assert ([f] + fs)[1..] == fs;
  }

  lemma AssignHere<N>(f: map<N, Value>, fs: Frames<N>, x: N, v: Value)
    requires x in f
    ensures Assigned([f] + fs, x, v) == [f[x := v]] + fs && IsBound([f] + fs, x)
  {
    assert ([f] + fs)[1..] == fs;
  }

  /** A name nobody declared is declared here, and then found. */
  lemma AssignNew<N>(f: map<N, Value>, fs: Frames<N>, x: N, v: Value)
    requires x !in f && !IsBound(fs, x)
    ensures Assigned([f] + fs, x, v) == [f[x := v]] + fs && Lookup(Assigned([f] + fs, x, v), x) == Some(v)
  {
    assert ([f] + fs)[1..] == fs;
  }

  lemma DeclareHere<N>(f: map<N, Value>, fs: Frames<N>, x: N, v: Value)
    ensures Declared([f] + fs, x, v) == [f[x := v]] + fs
  {
    assert ([f] + fs)[1..] == fs;
  }

  // ----- evaluation; None is a run-time error -----

  function Eval<N(==)>(e: Expr<N>, fs: Frames<N>): Option<Value> {
    match e
    case IntLit(n) => Some(Num(n))
    case StrLit(s) => Some(Str(s))
    case Var(name) => Lookup(fs, name)
    case Plus(l, r) => Add(Eval(l, fs), Eval(r, fs))
    case Eq(l, r) => Compare(Eval(l, fs), Eval(r, fs), true)
    case Ne(l, r) => Compare(Eval(l, fs), Eval(r, fs), false)
    case Lt(l, r) => Less(Eval(l, fs), Eval(r, fs), true)
    case Ge(l, r) => Less(Eval(l, fs), Eval(r, fs), false)
    case StrLen(x) =>
      var v := Eval(x, fs);
      if v.Some? && v.value.Str? then Some(Num(|v.value.s|)) else None
    case StrIndex(h, x) =>
      var a, b := Eval(h, fs), Eval(x, fs);
      if a.Some? && a.value.Str? && b.Some? && b.value.Str? then Some(Num(Index(a.value.s, b.value.s))) else None
    case StrFrom(x, i) =>
      var a, b := Eval(x, fs), Eval(i, fs);
      if a.Some? && a.value.Str? && b.Some?
            && b.value.Num? then Some(Str(a.value.s[Bound(a.value.s, b.value.n)..])) else None
    case StrSub(x, i, j) =>
      var a, b, c := Eval(x, fs), Eval(i, fs), Eval(j, fs);
      if a.Some? && a.value.Str? && b.Some? && b.value.Num? && c.Some? && c.value.Num?
      then Some(Str(Slice(a.value.s, b.value.n, c.value.n))) else None
  }

  function Add(a: Option<Value>, b: Option<Value>): Option<Value> {
    if a.None? || b.None? then None
    else if a.value.Num? && b.value.Num? then Some(Num(a.value.n + b.value.n))
    else if a.value.Str? && b.value.Str? then Some(Str(a.value.s + b.value.s))
    else None
  }

  function Compare(a: Option<Value>, b: Option<Value>, want: bool): Option<Value> {
    if a.None? || b.None? then None else Some(Bool(Same(a.value, b.value) == want))
  }

  function Less(a: Option<Value>, b: Option<Value>, want: bool): Option<Value> {
    if a.None? || b.None? || AsNum(a.value).None? || AsNum(b.value).None? then None
    else Some(Bool((AsNum(a.value).value < AsNum(b.value).value) == want))
  }

  /** Numbers add up, strings are put together, and numbers compare by size. */
  lemma Operators<N>(m: int, n: int, s: string, t: string, fs: Frames<N>)
    ensures Eval(Plus(IntLit(m), IntLit(n)), fs) == Some(Num(m + n))
    ensures Eval(Plus(StrLit(s), StrLit(t)), fs) == Some(Str(s + t))
    ensures Eval(Lt(IntLit(m), IntLit(n)), fs) == Some(Bool(m < n))
    ensures Eval(Eq(IntLit(m), IntLit(n)), fs) == Some(Bool(m == n))
    ensures Eval(Lt(StrLit(s), IntLit(n)), fs).None? && Eval(StrLen(IntLit(n)), fs).None?
    ensures Eval(StrLen(Plus(StrLit(s), StrLit(t))), fs) == Some(Num(|s| + |t|))
  {
  }

  /** Unequal is the opposite of equal, and at least the opposite of less, also where they fail. */
  lemma Opposites<N>(l: Expr<N>, r: Expr<N>, fs: Frames<N>)
    ensures Eval(Eq(l, r), fs).None? <==> Eval(l, fs).None? || Eval(r, fs).None?
    ensures Eval(Ne(l, r), fs).Some? <==> Eval(Eq(l, r), fs).Some?
    ensures Eval(Ne(l, r), fs).Some? ==>
              (Eval(Ne(l, r), fs) == Some(Bool(true)) <==> Eval(Eq(l, r), fs) == Some(Bool(false)))
    ensures Eval(Ge(l, r), fs).Some? <==> Eval(Lt(l, r), fs).Some?
    ensures Eval(Ge(l, r), fs).Some? ==>
              (Eval(Ge(l, r), fs) == Some(Bool(true)) <==> Eval(Lt(l, r), fs) == Some(Bool(false)))
  {
  }

  /** Slicing to the end is slicing up to the length. */
  lemma FromIsSub<N>(x: Expr<N>, i: Expr<N>, fs: Frames<N>)
    ensures Eval(StrFrom(x, i), fs) == Eval(StrSub(x, i, StrLen(x)), fs)
  {
    if Eval(x, fs).Some? && Eval(x, fs).value.Str? {
      var s := Eval(x, fs).value.s;
      assert Eval(StrLen(x), fs) == Some(Num(|s|));
      assert forall n :: s[Bound(s, n)..|s|] == s[Bound(s, n)..];
    }
  }

  // ----- execution -----

  datatype State<!N> = State(frames: Frames<N>, reply: Option<Value>)

  function Exec<N(==)>(s: Stmt<N>, st: State<N>): Option<State<N>>
    requires st.frames != []
    ensures Exec(s, st).Some? ==> |Exec(s, st).value.frames| == |st.frames|
    decreases s
  {
    match s
    case VarDecl(x, e) =>
      var v := Eval(e, st.frames);
      if v.None? then None else Some(st.(frames := Declared(st.frames, x, v.value)))
    case Assign(x, e) =>
      var v := Eval(e, st.frames);
      if v.None? then None
      else
        UpdateKeeps(st.frames, x, v.value);
        Some(st.(frames := Assigned(st.frames, x, v.value)))
    case If(c, thn, els) =>
      var v := Eval(c, st.frames);
      if v.None? then None
      else Block(if Truthy(v.value) then thn else els, st)
    case Reply(e) =>
      var v := Eval(e, st.frames);
      if v.None? then None else Some(st.(reply := Some(v.value)))
  }

  /** A statement whose expression fails, fails; a condition is taken by its truth value. */
  lemma Statements<N>(x: N, e: Expr<N>, thn: seq<Stmt<N>>, els: seq<Stmt<N>>, st: State<N>)
    requires st.frames != []
    ensures Eval(e, st.frames).None? ==>
              && Exec(VarDecl(x, e), st).None? && Exec(Assign(x, e), st).None?
              && Exec(If(e, thn, els), st).None? && Exec(Reply(e), st).None?
    ensures Eval(e, st.frames).Some? ==>
              && Exec(Reply(e), st) == Some(State(st.frames, Eval(e, st.frames)))
              && Exec(If(e, thn, els), st) == Block(if Truthy(Eval(e, st.frames).value) then thn else els, st)
  {
  }

  lemma {:induction false} UpdateKeeps<N>(fs: Frames<N>, x: N, v: Value)
    ensures |Update(fs, x, v)| == |fs|
  {
    if fs != [] && x !in fs[0] {
      UpdateKeeps(fs[1..], x, v);
    }
  }

  function ExecAll<N(==)>(ss: seq<Stmt<N>>, st: State<N>): Option<State<N>>
    requires st.frames != []
    ensures ExecAll(ss, st).Some? ==> |ExecAll(ss, st).value.frames| == |st.frames|
    decreases ss, 0
  {
    if ss == [] then Some(st)
    else
      match Exec(ss[0], st)
      case None => None
      case Some(next) => ExecAll(ss[1..], next)
  }

  /** A block runs in a scope of its own. */
  function Block<N(==)>(ss: seq<Stmt<N>>, st: State<N>): Option<State<N>>
    requires st.frames != []
    ensures Block(ss, st).Some? ==> |Block(ss, st).value.frames| == |st.frames|
    decreases ss, 1
  {
    match ExecAll(ss, st.(frames := [map[]] + st.frames))
    case None => None
    case Some(done) => Some(done.(frames := done.frames[1..]))
  }

  /** What a method called with these arguments replies; None after a run-time error. */
  function Call<N(==)>(body: seq<Stmt<N>>, args: map<N, Value>): Option<State<N>> {
    Block(body, State([args], None))
  }

  lemma BlockIs<N>(ss: seq<Stmt<N>>, fs: Frames<N>, reply: Option<Value>, own: map<N, Value>, after: Frames<N>,
                   replied: Option<Value>)
    requires fs != [] && after != []
    requires ExecAll(ss, State([map[]] + fs, reply)) == Some(State([own] + after, replied))
    ensures Block(ss, State(fs, reply)) == Some(State(after, replied))
  {
    assert ([own] + after)[1..] == after;
  }

  lemma BranchIs<N>(c: Expr<N>, b: bool, thn: seq<Stmt<N>>, els: seq<Stmt<N>>, st: State<N>, done: State<N>)
    requires st.frames != [] && Eval(c, st.frames) == Some(Bool(b))
    requires Block(if b then thn else els, st) == Some(done)
    ensures Exec(If(c, thn, els), st) == Some(done)
  {
  }

  lemma One<N>(s: Stmt<N>, st: State<N>)
    requires st.frames != []
    ensures ExecAll([s], st) == Exec(s, st)
  {
    assert [s][1..] == [];
  }

  lemma Front<N>(s: Stmt<N>, ss: seq<Stmt<N>>, st: State<N>)
    requires st.frames != []
    ensures ExecAll([s] + ss, st) == match Exec(s, st) case None => None case Some(next) => ExecAll(ss, next)
  {
    assert ([s] + ss)[1..] == ss;
  }

  /** A declaration in front of other statements. */
  lemma DeclareFirst<N>(x: N, e: Expr<N>, v: Value, ss: seq<Stmt<N>>, f: map<N, Value>, fs: Frames<N>,
                        reply: Option<Value>)
    requires Eval(e, [f] + fs) == Some(v)
    ensures ExecAll([VarDecl(x, e)] + ss, State([f] + fs, reply)) == ExecAll(ss, State([f[x := v]] + fs, reply))
  {
    DeclareHere(f, fs, x, v);
    Front(VarDecl(x, e), ss, State([f] + fs, reply));
  }

  lemma {:induction false} ExecAppend<N>(xs: seq<Stmt<N>>, ys: seq<Stmt<N>>, st: State<N>)
    requires st.frames != []
    ensures ExecAll(xs + ys, st) == match ExecAll(xs, st) case None => None case Some(mid) => ExecAll(ys, mid)
    decreases |xs|
  {
    if xs == [] {
      assert xs + ys == ys;
    } else {
      assert (xs + ys)[1..] == xs[1..] + ys;
      if Exec(xs[0], st).Some? {
        ExecAppend(xs[1..], ys, Exec(xs[0], st).value);
      }
    }
  }
}

/** The observed-remove set as the runtime stores it: rows in a fixed-size table, searched and
    updated in place. */
module OrSetTables {
  import opened OrSets

  lemma {:induction false} WithElemBounded<E, T>(v: View<E, T>, maxElems: nat, maxTags: nat, e: E)
    requires Bounded(v, maxElems, maxTags)
    ensures Bounded(WithElem(v, maxElems, e), maxElems, maxTags)
  {
    NewRow(v, maxElems, e);
  }

  lemma SetBounded<E, T>(v: View<E, T>, maxElems: nat, maxTags: nat, i: nat, x: Entry<E, T>)
    requires Bounded(v, maxElems, maxTags) && i < |v| && x.elem == v[i].elem
    requires |x.adds| <= maxTags && |x.rems| <= maxTags
    ensures Bounded(v[i := x], maxElems, maxTags)
  {
    SetRow(v, i, x);
  }

  /** The live elements in table order. */
  function LiveElems<E, T(==)>(v: View<E, T>): seq<E> {
    if v == [] then []
    else
      var x := v[|v| - 1];
      LiveElems(v[..|v| - 1]) + if Live(TagsOf(x)) then [x.elem] else []
  }

  lemma {:induction false} LiveElemsJoin<E, T>(a: View<E, T>, b: View<E, T>)
    ensures LiveElems(a + b) == LiveElems(a) + LiveElems(b)
    decreases |b|
  {
    if b == [] {
      assert a + b == a;
    } else {
      assert (a + b)[..|a + b| - 1] == a + b[..|b| - 1];
      LiveElemsJoin(a, b[..|b| - 1]);
    }
  }

  lemma {:induction false} LiveElemsAre<E, T>(v: View<E, T>, e: E)
    requires Distinct(v)
    ensures e in LiveElems(v) <==> Contains(v, e)
  {
    if v != [] {
      var front, y := v[..|v| - 1], v[|v| - 1];
      LastRow(v, front, y);
      LiveElemsAre(front, e);
    }
  }

  // ----- the elements as one text -----

  /** Texts one after the other, with a space once something has been written. */
  function Spaced(es: seq<string>): string {
    if es == [] then ""
    else
      var front, last := Spaced(es[..|es| - 1]), es[|es| - 1];
      if front == "" then last else front + " " + last
  }

  /** The parts of a text between its spaces. */
  function Words(t: string): (ws: seq<string>)
    ensures ws != []
  {
    if t == "" then [""]
    else
      var more := Words(t[1..]);
      if t[0] == ' ' then [""] + more else [[t[0]] + more[0]] + more[1..]
  }

  lemma {:induction false} OneWord(w: string)
    requires ' ' !in w
    ensures Words(w) == [w]
  {
    if w != "" {
      OneWord(w[1..]);
      assert w == [w[0]] + w[1..];
    }
  }

  lemma {:induction false} LastWord(t: string, w: string)
    requires ' ' !in w
    ensures Words(t + (" " + w)) == Words(t) + [w]
  {
    if t == "" {
      OneWord(w);
      assert (" " + w)[1..] == w && t + (" " + w) == " " + w;
    } else {
      LastWord(t[1..], w);
      assert (t + (" " + w))[1..] == t[1..] + (" " + w);
    }
  }

  /** From the text of elements that are words the elements can be told. */
  lemma {:induction false} SpacedReadsBack(es: seq<string>)
    requires es != [] && forall k :: 0 <= k < |es| ==> es[k] != "" && ' ' !in es[k]
    ensures Spaced(es) != "" && Words(Spaced(es)) == es
  {
    var front, last := es[..|es| - 1], es[|es| - 1];
    assert es == front + [last];
    if front == [] {
      OneWord(last);
    } else {
      SpacedReadsBack(front);
      LastWord(Spaced(front), last);
      assert Spaced(front) + " " + last == Spaced(front) + (" " + last);
    }
  }

  method Has<T(==)>(xs: seq<T>, tag: T) returns (found: bool)
    ensures found == (tag in xs)
  {
    for i := 0 to |xs|
      invariant tag !in xs[..i]
    {
      if xs[i] == tag {
        return true;
      }
    }
    assert xs[..|xs|] == xs;
    found := false;
  }

  /** A row of tags of a merged set: its own, then the other's new ones while there is room. */
  method AppendTags<T(==)>(xs: seq<T>, ys: seq<T>, maxTags: nat) returns (r: seq<T>)
    ensures r == AppendNew(xs, ys, maxTags)
  {
    r := xs;
    var k := 0;
    while k < |ys| && |r| < maxTags
      invariant k <= |ys|
      invariant AppendNew(r, ys[k..], maxTags) == AppendNew(xs, ys, maxTags)
    {
      var dup := Has(r, ys[k]);
      assert ys[k..][1..] == ys[k + 1..];
      if !dup {
        r := r + [ys[k]];
      }
      k := k + 1;
    }
  }

  class OrSet<E(==), T(==)> {
    const maxElems: nat
    const maxTags: nat
    const slots: array<Entry<E, T>>
    var nElems: nat

    function View(): View<E, T>
      requires nElems <= slots.Length
      reads this, slots
    {
      slots[..nElems]
    }

    ghost predicate Valid()
      reads this, slots
    {
      && slots.Length == maxElems && nElems <= maxElems
      && Bounded(View(), maxElems, maxTags)
    }

    /** An empty set; blank is what an unused row holds for an element. */
    constructor (maxElems: nat, maxTags: nat, blank: E)
      ensures this.maxElems == maxElems && this.maxTags == maxTags
      ensures Valid() && fresh(slots) && View() == []
    {
      this.maxElems := maxElems;
      this.maxTags := maxTags;
      slots := new Entry<E, T>[maxElems](_ => Entry(blank, [], []));
      nElems := 0;
    }

    method FindElem(e: E) returns (i: int)
      requires Valid()
      ensures i == Find(View(), e, 0)
    {
      i := 0;
      while i < nElems
        invariant 0 <= i <= nElems && Find(View(), e, 0) == Find(View(), e, i)
      {
        if slots[i].elem == e {
          return;
        }
        i := i + 1;
      }
      i := -1;
    }

    method FindOrCreate(e: E) returns (i: int)
      requires Valid()
      modifies slots, this`nElems
      ensures Valid() && View() == WithElem(old(View()), maxElems, e) && i == Find(View(), e, 0)
    {
      i := FindElem(e);
      if i < 0 && nElems < maxElems {
        WithElemBounded(View(), maxElems, maxTags, e);
        FindMore(View(), Entry(e, [], []), e, 0);
        i := nElems;
        slots[i] := Entry(e, [], []);
        nElems := nElems + 1;
        assert View() == old(View()) + [Entry(e, [], [])];
      }
    }

    method SetRowAt(i: nat, x: Entry<E, T>)
      requires Valid() && i < nElems && x.elem == slots[i].elem && |x.adds| <= maxTags && |x.rems| <= maxTags
      modifies slots
      ensures Valid() && View() == old(View())[i := x]
    {
      SetBounded(View(), maxElems, maxTags, i, x);
      slots[i] := x;
      assert View() == old(View())[i := x];
    }

    /** Adds e under a new tag; silently refused when the tables are full. */
    method Add(e: E, tag: T)
      requires Valid()
      modifies slots, this`nElems
      ensures Valid() && View() == Added(old(View()), maxElems, maxTags, e, tag)
    {
      var i := FindOrCreate(e);
      if i < 0 || |slots[i].adds| >= maxTags {
        return;
      }
      SetRowAt(i, slots[i].(adds := slots[i].adds + [tag]));
    }

    /** Removes e by copying its add tags to its removal tags, one by one while there is room. */
    method Remove(e: E)
      requires Valid()
      modifies slots
      ensures Valid() && View() == Removed(old(View()), maxTags, e)
    {
      var i := FindElem(e);
      if i < 0 {
        return;
      }
      ghost var x := slots[i];
      var k := 0;
      assert View()[i := x] == View();
      while k < |slots[i].adds| && |slots[i].rems| < maxTags
        invariant Valid() && nElems == old(nElems) && 0 <= k <= |x.adds| && |x.rems| + k <= maxTags
        invariant slots[i] == x.(rems := x.rems + x.adds[..k])
        invariant View() == old(View())[i := slots[i]]
      {
        SetRowAt(i, slots[i].(rems := slots[i].rems + [slots[i].adds[k]]));
        assert slots[i] == View()[i];
        k := k + 1;
      }
    }

    method Alive(i: nat) returns (alive: bool)
      requires Valid() && i < nElems
      ensures alive == Live(TagsOf(slots[i]))
    {
      var adds, rems := slots[i].adds, slots[i].rems;
      for a := 0 to |adds|
        invariant forall k :: 0 <= k < a ==> adds[k] in rems
      {
        var found := Has(rems, adds[a]);
        if !found {
          assert adds[a] in ToSet(adds) && adds[a] !in ToSet(rems);
          return true;
        }
      }
      alive := false;
    }

    method HasElem(e: E) returns (b: bool)
      requires Valid()
      ensures b == Contains(View(), e)
    {
      var i := FindElem(e);
      if i < 0 {
        return false;
      }
      b := Alive(i);
    }

    method CopyFrom(a: OrSet<E, T>)
      requires slots != a.slots && Valid() && a.Valid() && a.maxElems == maxElems && a.maxTags == maxTags
      modifies slots, this`nElems
      ensures Valid() && View() == a.View()
    {
      for i := 0 to maxElems
        invariant forall k :: 0 <= k < i ==> slots[k] == a.slots[k]
      {
        slots[i] := a.slots[i];
      }
      nElems := a.nElems;
      assert View() == a.View();
    }

    method Take(y: Entry<E, T>)
      requires Valid()
      modifies slots, this`nElems
      ensures Valid() && View() == MergeOne(old(View()), maxElems, maxTags, y)
    {
      var i := FindOrCreate(y.elem);
      if i >= 0 {
        var x := slots[i];
        var adds := AppendTags(x.adds, y.adds, maxTags);
        var rems := AppendTags(x.rems, y.rems, maxTags);
        AppendUnion(x.adds, y.adds, maxTags);
        AppendUnion(x.rems, y.rems, maxTags);
        SetRowAt(i, x.(adds := adds, rems := rems));
      }
    }

    /** A new set with the merged rows of both, which stay as they are; a and b may be the same. */
    static method Merge(a: OrSet<E, T>, b: OrSet<E, T>, blank: E) returns (out: OrSet<E, T>)
      requires a.Valid() && b.Valid() && a.maxElems == b.maxElems && a.maxTags == b.maxTags
      ensures fresh(out) && fresh(out.slots) && out.Valid() && out.maxElems == a.maxElems && out.maxTags == a.maxTags
      ensures out.View() == Merged(a.View(), b.View(), a.maxElems, a.maxTags)
    {
      out := new OrSet(a.maxElems, a.maxTags, blank);
      out.CopyFrom(a);
      ghost var rows := b.View();
      for j := 0 to b.nElems
        invariant out.Valid() && b.Valid() && b.View() == rows
        invariant out.View() == Merged(a.View(), rows[..j], a.maxElems, a.maxTags)
      {
        assert rows[..j + 1][..j] == rows[..j];
        out.Take(b.slots[j]);
      }
      assert rows[..b.nElems] == rows;
    }
  }

  lemma LiveStep<E, T>(v: View<E, T>, i: nat)
    requires i < |v|
    ensures LiveElems(v[..i + 1]) == if Live(TagsOf(v[i])) then LiveElems(v[..i]) + [v[i].elem] else LiveElems(v[..i])
  {
    assert v[..i + 1][..i] == v[..i];
  }

  lemma SpacedStep(es: seq<string>, e: string)
    ensures Spaced(es + [e]) == if Spaced(es) == "" then e else Spaced(es) + " " + e
  {
    assert (es + [e])[..|es|] == es;
  }

  /** The elements in the set as the runtime returns them, separated by spaces. */
  method ValuesText<T(==)>(s: OrSet<string, T>) returns (buf: string)
    requires s.Valid()
    ensures buf == Spaced(LiveElems(s.View()))
  {
    buf := "";
    ghost var v := s.View();
    for i := 0 to s.nElems
      invariant buf == Spaced(LiveElems(v[..i]))
    {
      var alive := s.Alive(i);
      LiveStep(v, i);
      if alive {
        SpacedStep(LiveElems(v[..i]), v[i].elem);
        if buf != "" {
          buf := buf + " ";
        }
        buf := buf + s.slots[i].elem;
      }
    }
    assert v[..s.nElems] == v;
  }

  /** With the shipped tables of 64 rows and 16 tags a row, the element is gone after five rounds and
      stays after a sixth. */
  lemma SixthRound<E, T>(e: E, tags: seq<T>)
    requires |tags| == 6 && AllNew(tags)
    ensures !Contains(Rounds(e, tags[..5], 64, 16), e)
    ensures Contains(Rounds(e, tags, 64, 16), e)
  {
    assert Triangle(5) == 15 && Triangle(6) == 21;
    RoundsGone(e, tags[..5], 64, 16);
    RoundsGone(e, tags, 64, 16);
  }
}

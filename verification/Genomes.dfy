/** Genomes and schema tables kept as strings, name=value|name=value and name:v1,v2|name:v1,v2:
    reading and writing by substring search behaves like a map. */
module GenomeStrings {
  import opened Aipl
  import opened Coherence

  const BAR := "|"

  // ----- reading and writing, as the emitted helpers do it -----

  /** The text from position i to the next bar. */
  function UpToBar(text: string, i: nat): string
    requires i <= |text|
  {
    var rest := text[i..];
    var bar := Index(rest, BAR);
    if bar < 0 then rest else rest[..bar]
  }

  /** The text from the next bar behind position i on, bar included. */
  function FromBar(text: string, i: nat): string
    requires i <= |text|
  {
    var rest := text[i..];
    var bar := Index(rest, BAR);
    if bar < 0 then "" else rest[bar..]
  }

  /** The field behind a key, up to the next bar. */
  function Field(text: string, key: string): string {
    var at := Index(text, key);
    if at < 0 then "" else UpToBar(text, at + |key|)
  }

  /** The text with the field behind a key that was found at a position, or not found, replaced or added. */
  function SetFieldAt(text: string, at: int, key: string, value: string): string
    requires at < 0 || at + |key| <= |text|
  {
    if at >= 0 then text[..at] + key + value + FromBar(text, at + |key|)
    else if text == "" then key + value
    else text + "|" + key + value
  }

  function SetField(text: string, key: string, value: string): string {
    SetFieldAt(text, Index(text, key), key, value)
  }

  function SetAxis(genome: string, axis: string, value: string): string {
    SetField(genome, axis + "=", value)
  }

  /** The reader that is compiled into the coherence method is this one. */
  lemma GetAxisIsField(genome: string, axis: string)
    ensures GetAxis(genome, axis) == Field(genome, axis + "=")
  {
  }

  // ----- what the strings stand for -----

  datatype Entry = Entry(name: string, value: string)

  function TextOf(e: Entry, sep: char): string {
    e.name + [sep] + e.value
  }

  function Encode(es: seq<Entry>, sep: char): string {
    if es == [] then "" else TextOf(es[0], sep) + (if |es| == 1 then "" else "|" + Encode(es[1..], sep))
  }

  function Get(es: seq<Entry>, name: string): string {
    if es == [] then "" else if es[0].name == name then es[0].value else Get(es[1..], name)
  }

  /** Replaces the value of a name, or adds the name at the end. */
  function Put(es: seq<Entry>, name: string, value: string): seq<Entry> {
    if es == [] then [Entry(name, value)]
    else if es[0].name == name then [Entry(name, value)] + es[1..]
    else [es[0]] + Put(es[1..], name, value)
  }

  lemma {:induction false} PutGet(es: seq<Entry>, name: string, value: string, other: string)
    ensures Get(Put(es, name, value), other) == if other == name then value else Get(es, other)
  {
    if es != [] && es[0].name != name {
      PutGet(es[1..], name, value, other);
      assert Put(es, name, value)[1..] == Put(es[1..], name, value);
    }
  }

  /** Writing replaces the name's entry where it stands, or appends a new one. */
  lemma {:induction false} PutPlaces(es: seq<Entry>, name: string, value: string, k: nat)
    requires k <= |es| && (forall j :: 0 <= j < k ==> es[j].name != name) && (k < |es| ==> es[k].name == name)
    ensures Put(es, name, value) == if k < |es| then es[k := Entry(name, value)] else es + [Entry(name, value)]
  {
    if k > 0 {
      PutPlaces(es[1..], name, value, k - 1);
      assert es == [es[0]] + es[1..];
    }
  }

  /** The text of two entries, as genomes and as schema tables are written. */
  lemma EncodeShape(a: string, v: string, b: string, w: string)
    ensures Encode([], '=') == "" && Encode([Entry(a, v)], '=') == a + "=" + v
    ensures Encode([Entry(a, v), Entry(b, w)], '=') == a + "=" + v + "|" + b + "=" + w
    ensures Encode([Entry(a, v), Entry(b, w)], ':') == a + ":" + v + "|" + b + ":" + w
  {
    assert [Entry(a, v), Entry(b, w)][1..] == [Entry(b, w)];
    assert a + "=" + v + "" == a + "=" + v;
  }

  // ----- when substring search finds the right place -----

  predicate Plain(s: string, sep: char) {
    '|' !in s && sep !in s
  }

  predicate IsSuffix(a: string, b: string) {
    |a| <= |b| && b[|b| - |a|..] == a
  }

  /** Names and values hold no separator, and no name ends with another name. */
  ghost predicate Sound(es: seq<Entry>, names: set<string>, sep: char) {
    && sep != '|'
    && (forall a :: a in names ==> Plain(a, sep))
    && (forall a, b :: a in names && b in names && IsSuffix(a, b) ==> a == b)
    && (forall k :: 0 <= k < |es| ==> es[k].name in names && Plain(es[k].value, sep))
  }

  lemma SoundTail(es: seq<Entry>, names: set<string>, sep: char)
    requires Sound(es, names, sep) && es != []
    ensures Sound(es[1..], names, sep)
  {
  }

  /** What follows an entry: nothing, or a bar and the next entries. */
  predicate IsTail(tail: string) {
    tail == "" || tail[0] == '|'
  }

  lemma CharAt(e: Entry, sep: char, k: nat)
    requires k < |TextOf(e, sep)|
    ensures TextOf(e, sep)[k] == if k < |e.name| then e.name[k] else if k == |e.name|
          then sep else e.value[k - |e.name| - 1]
  {
  }

  /** An occurrence of a key that starts in the text in front of a bar ends in it. */
  lemma EndsBeforeBar(text: string, tail: string, name: string, sep: char, i: nat)
    requires sep != '|' && '|' !in name && IsTail(tail) && i <= |text|
    requires OccursAt(text + tail, name + [sep], i)
    ensures i + |name| < |text| && text[i + |name|] == sep && text[i..i + |name|] == name
  {
    var all, k := text + tail, i + |name|;
    assert all[i..k + 1] == name + [sep];
    assert all[k] == (name + [sep])[|name|] == sep;
    assert all[i..k] == all[i..k + 1][..|name|] == name;
    assert forall x :: i <= x < k ==> all[x] == all[i..k][x - i] == name[x - i];
    assert |text| < |all| ==> all[|text|] == '|';
    assert k < |text|;
    assert text[i..k] == all[i..k];
  }

  /** The key of a name occurs in an entry only at its front, and only in the entry of that name. */
  lemma OnlyAtFront(e: Entry, sep: char, tail: string, name: string, i: nat)
    requires sep != '|' && Plain(e.name, sep) && Plain(e.value, sep) && Plain(name, sep) && IsTail(tail)
    requires IsSuffix(name, e.name) ==> name == e.name
    requires i <= |TextOf(e, sep)| && OccursAt(TextOf(e, sep) + tail, name + [sep], i)
    ensures i == 0 && e.name == name
  {
    EndsBeforeBar(TextOf(e, sep), tail, name, sep, i);
    CharAt(e, sep, i + |name|);
    assert i + |name| == |e.name|;
    assert e.name[i..] == TextOf(e, sep)[i..i + |name|];
    assert IsSuffix(name, e.name);
  }

  lemma IndexIs(h: string, n: string, i: nat)
    requires OccursAt(h, n, i) && forall j: nat :: j < i ==> !OccursAt(h, n, j)
    ensures Index(h, n) == i
  {
    IndexIsFirst(h, n, 0, i);
    IndexOccurs(h, n, 0);
  }

  lemma IndexNone(h: string, n: string)
    requires forall j: nat :: j <= |h| ==> !OccursAt(h, n, j)
    ensures Index(h, n) == -1
  {
    if Index(h, n) >= 0 {
      IndexOccurs(h, n, 0);
    }
  }

  /** The entry of the name itself. */
  lemma FoundHere(e: Entry, sep: char, tail: string)
    ensures Index(TextOf(e, sep) + tail, e.name + [sep]) == 0
  {
    assert TextOf(e, sep) + tail == (e.name + [sep]) + (e.value + tail);
    IndexIsFirst(TextOf(e, sep) + tail, e.name + [sep], 0, 0);
  }

  lemma ShiftOccurs(front: string, rest: string, key: string, j: nat)
    ensures OccursAt(front + rest, key, |front| + j) <==> OccursAt(rest, key, j)
  {
    if j + |key| <= |rest| {
      assert (front + rest)[|front| + j..|front| + j + |key|] == rest[j..j + |key|];
    }
  }

  /** The search for a key goes on behind front. */
  ghost predicate SearchedPast(all: string, front: string, rest: string, key: string) {
    all == front + rest && Index(all, key) == if Index(rest, key) < 0 then -1 else |front| + Index(rest, key)
  }

  /** Where nothing occurs in front, the search goes on behind it. */
  lemma SearchedBehind(front: string, rest: string, key: string)
    requires forall j: nat :: j < |front| ==> !OccursAt(front + rest, key, j)
    ensures SearchedPast(front + rest, front, rest, key)
  {
    var all, r := front + rest, Index(rest, key);
    forall j: nat | |front| <= j <= |all| && OccursAt(all, key, j)
      ensures 0 <= r <= j - |front|
    {
      ShiftOccurs(front, rest, key, j - |front|);
      IndexIsFirst(rest, key, 0, j - |front|);
    }
    if r < 0 {
      IndexNone(all, key);
    } else {
      IndexOccurs(rest, key, 0);
      ShiftOccurs(front, rest, key, r);
      IndexIs(all, key, |front| + r);
    }
  }

  /** Past an entry of another name the search goes on in the entries behind it. */
  lemma FoundBehind(e: Entry, sep: char, rest: string, name: string)
    requires sep != '|' && Plain(e.name, sep) && Plain(e.value, sep) && Plain(name, sep)
    requires e.name != name && (IsSuffix(name, e.name) ==> name == e.name)
    ensures var front := TextOf(e, sep) + "|"; SearchedPast(front + rest, front, rest, name + [sep])
  {
    var front, key := TextOf(e, sep) + "|", name + [sep];
    assert front + rest == TextOf(e, sep) + ("|" + rest);
    forall j: nat | j < |front|
      ensures !OccursAt(front + rest, key, j)
    {
      if OccursAt(front + rest, key, j) {
        OnlyAtFront(e, sep, "|" + rest, name, j);
      }
    }
    SearchedBehind(front, rest, key);
  }

  /** The only, or a last, entry of another name. */
  lemma NotFound(e: Entry, sep: char, name: string)
    requires sep != '|' && Plain(e.name, sep) && Plain(e.value, sep) && Plain(name, sep)
    requires e.name != name && (IsSuffix(name, e.name) ==> name == e.name)
    ensures Index(TextOf(e, sep), name + [sep]) == -1
  {
    var text, key := TextOf(e, sep), name + [sep];
    assert text + "" == text;
    forall j: nat | j <= |text|
      ensures !OccursAt(text, key, j)
    {
      if OccursAt(text, key, j) {
        OnlyAtFront(e, sep, "", name, j);
      }
    }
    IndexNone(text, key);
  }

  lemma OccursOne(h: string, c: char, j: nat)
    ensures OccursAt(h, [c], j) <==> j < |h| && h[j] == c
  {
    if j < |h| {
      assert h[j..j + 1] == [h[j]];
    }
  }

  lemma BarAfter(v: string, tail: string)
    requires '|' !in v && IsTail(tail)
    ensures Index(v + tail, BAR) == if tail == "" then -1 else |v|
  {
    forall j: nat
      ensures OccursAt(v + tail, BAR, j) <==> j < |v + tail| && (v + tail)[j] == '|'
    {
      OccursOne(v + tail, '|', j);
    }
    if tail == "" {
      IndexNone(v + tail, BAR);
    } else {
      IndexIs(v + tail, BAR, |v|);
    }
  }

  // ----- the strings behave like maps -----

  lemma Around(v: string, tail: string, front: string)
    requires '|' !in v && IsTail(tail)
    ensures UpToBar(front + (v + tail), |front|) == v && FromBar(front + (v + tail), |front|) == tail
  {
    assert (front + (v + tail))[|front|..] == v + tail;
    BarAfter(v, tail);
    assert (v + tail)[..|v|] == v && (v + tail)[|v|..] == tail;
    assert v + "" == v;
  }

  lemma Past(front: string, rest: string, i: nat)
    requires i <= |rest|
    ensures UpToBar(front + rest, |front| + i) == UpToBar(rest, i)
    ensures FromBar(front + rest, |front| + i) == FromBar(rest, i)
  {
    assert (front + rest)[|front| + i..] == rest[i..];
  }

  lemma FieldHere(e: Entry, sep: char, tail: string)
    requires '|' !in e.value && IsTail(tail)
    ensures Field(TextOf(e, sep) + tail, e.name + [sep]) == e.value
  {
    FoundHere(e, sep, tail);
    assert TextOf(e, sep) + tail == e.name + [sep] + (e.value + tail);
    Around(e.value, tail, e.name + [sep]);
  }

  lemma FieldAt(text: string, key: string, at: nat)
    requires Index(text, key) == at
    ensures at + |key| <= |text| && Field(text, key) == UpToBar(text, at + |key|)
  {
  }

  lemma FieldPast(all: string, front: string, rest: string, key: string)
    requires SearchedPast(all, front, rest, key)
    ensures Field(all, key) == Field(rest, key)
  {
    var r := Index(rest, key);
    if r >= 0 {
      FieldAt(all, key, |front| + r);
      FieldAt(rest, key, r);
      Past(front, rest, r + |key|);
    }
  }

  lemma EncodeFirst(es: seq<Entry>, sep: char)
    requires es != []
    ensures |es| == 1 ==> Encode(es, sep) == TextOf(es[0], sep)
    ensures |es| > 1 ==> Encode(es, sep) == TextOf(es[0], sep) + "|" + Encode(es[1..], sep)
  {
    assert TextOf(es[0], sep) + "" == TextOf(es[0], sep);
    if |es| > 1 {
      assert TextOf(es[0], sep) + ("|" + Encode(es[1..], sep)) == TextOf(es[0], sep) + "|" + Encode(es[1..], sep);
    }
  }

  /** Reading a name from the string gives the value the entries have for it, or "" without one. */
  lemma {:induction false} FieldIsGet(es: seq<Entry>, names: set<string>, sep: char, name: string)
    requires Sound(es, names, sep) && name in names
    ensures Field(Encode(es, sep), name + [sep]) == Get(es, name)
  {
    if es == [] {
      IndexNone("", name + [sep]);
    } else {
      var e := es[0];
      SoundTail(es, names, sep);
      EncodeFirst(es, sep);
      if e.name == name {
        var tail := if |es| == 1 then "" else "|" + Encode(es[1..], sep);
        FieldHere(e, sep, tail);
      } else if |es| == 1 {
        NotFound(e, sep, name);
      } else {
        FoundBehind(e, sep, Encode(es[1..], sep), name);
        FieldPast(Encode(es, sep), TextOf(e, sep) + "|", Encode(es[1..], sep), name + [sep]);
        FieldIsGet(es[1..], names, sep, name);
      }
    }
  }

  lemma SetHere(e: Entry, sep: char, tail: string, value: string)
    requires '|' !in e.value && IsTail(tail)
    ensures SetField(TextOf(e, sep) + tail, e.name + [sep], value) == TextOf(Entry(e.name, value), sep) + tail
  {
    FoundHere(e, sep, tail);
    var text, key := TextOf(e, sep) + tail, e.name + [sep];
    assert text == key + (e.value + tail);
    Around(e.value, tail, key);
    assert text[..0] + key + value + tail == key + value + tail;
  }

  lemma KeepsFront(front: string, a: string, b: string, c: string, d: string)
    ensures front + a + b + c + d == front + (a + b + c + d)
  {
  }

  lemma TakePast(front: string, rest: string, r: nat)
    requires r <= |rest|
    ensures (front + rest)[..|front| + r] == front + rest[..r]
  {
  }

  lemma SetAtPast(front: string, rest: string, r: nat, key: string, value: string)
    requires r + |key| <= |rest|
    ensures SetFieldAt(front + rest, |front| + r, key, value) == front + SetFieldAt(rest, r, key, value)
  {
    var tail := FromBar(rest, r + |key|);
    assert FromBar(front + rest, |front| + r + |key|) == tail by {
      Past(front, rest, r + |key|);
    }
    TakePast(front, rest, r);
    assert SetFieldAt(front + rest, |front| + r, key, value) == front + rest[..r] + key + value + tail;
    KeepsFront(front, rest[..r], key, value, tail);
  }

  lemma SetPast(all: string, front: string, rest: string, key: string, value: string)
    requires SearchedPast(all, front, rest, key) && rest != ""
    ensures SetField(all, key, value) == front + SetField(rest, key, value)
  {
    if Index(rest, key) >= 0 {
      SetFoundPast(all, front, rest, key, value);
    } else {
      AddPast(front, rest, key, value);
    }
  }

  lemma SetFoundPast(all: string, front: string, rest: string, key: string, value: string)
    requires all == front + rest && Index(rest, key) >= 0 && Index(all, key) == |front| + Index(rest, key)
    ensures SetField(all, key, value) == front + SetField(rest, key, value)
  {
    SetAtPast(front, rest, Index(rest, key), key, value);
  }

  lemma AddPast(front: string, rest: string, key: string, value: string)
    requires rest != ""
    ensures SetFieldAt(front + rest, -1, key, value) == front + SetFieldAt(rest, -1, key, value)
  {
    KeepsFront(front, rest, "|", key, value);
  }

  lemma SetAdds(e: Entry, sep: char, name: string, value: string)
    requires sep != '|' && Plain(e.name, sep) && Plain(e.value, sep) && Plain(name, sep)
    requires e.name != name && (IsSuffix(name, e.name) ==> name == e.name)
    ensures SetField(TextOf(e, sep), name + [sep], value) == TextOf(e, sep) + "|" + TextOf(Entry(name, value), sep)
  {
    NotFound(e, sep, name);
    assert TextOf(e, sep) + "|" + (name + [sep]) + value == TextOf(e, sep) + "|" + (name + [sep] + value);
  }

  /** Writing a name into the string gives the string of the entries with that name put. */
  lemma {:induction false} SetIsPut(es: seq<Entry>, names: set<string>, sep: char, name: string, value: string)
    requires Sound(es, names, sep) && name in names
    ensures SetField(Encode(es, sep), name + [sep], value) == Encode(Put(es, name, value), sep)
  {
    var ps := Put(es, name, value);
    EncodeFirst(ps, sep);
    if es == [] {
      IndexNone("", name + [sep]);
    } else {
      var e := es[0];
      SoundTail(es, names, sep);
      EncodeFirst(es, sep);
      if e.name == name {
        assert ps[1..] == es[1..];
        SetHere(e, sep, if |es| == 1 then "" else "|" + Encode(es[1..], sep), value);
      } else if |es| == 1 {
        assert es[1..] == [] && ps[1..] == Put(es[1..], name, value) == [Entry(name, value)];
        EncodeFirst(ps[1..], sep);
        SetAdds(e, sep, name, value);
      } else {
        assert ps[1..] == Put(es[1..], name, value);
        EncodeFirst(es[1..], sep);
        FoundBehind(e, sep, Encode(es[1..], sep), name);
        SetPast(Encode(es, sep), TextOf(e, sep) + "|", Encode(es[1..], sep), name + [sep], value);
        SetIsPut(es[1..], names, sep, name, value);
      }
    }
  }

  lemma {:induction false} PutSound(es: seq<Entry>, names: set<string>, sep: char, name: string, value: string)
    requires Sound(es, names, sep) && name in names && Plain(value, sep)
    ensures Sound(Put(es, name, value), names, sep)
  {
    if es != [] && es[0].name != name {
      PutSound(es[1..], names, sep, name, value);
    }
  }

  /** Reading an axis after writing it gives what was written; every other axis reads as before. */
  lemma SetThenGet(es: seq<Entry>, names: set<string>, name: string, value: string, other: string)
    requires Sound(es, names, '=') && name in names && other in names && Plain(value, '=')
    ensures GetAxis(SetAxis(Encode(es, '='), name, value), other)
         == if other == name then value else GetAxis(Encode(es, '='), other)
  {
    SetIsPut(es, names, '=', name, value);
    PutSound(es, names, '=', name, value);
    FieldIsGet(Put(es, name, value), names, '=', other);
    FieldIsGet(es, names, '=', other);
    PutGet(es, name, value, other);
    GetAxisIsField(Encode(es, '='), other);
    GetAxisIsField(Encode(Put(es, name, value), '='), other);
  }

  // ----- names that end with other names -----

  /** In an entry the key of a name ends where the entry's own name ends. */
  lemma EndsWithName(a: string, e: Entry, j: nat)
    requires Plain(a, '=') && Plain(e.name, '=') && Plain(e.value, '=')
    requires j <= |TextOf(e, '=')| && OccursAt(TextOf(e, '='), a + "=", j)
    ensures j + |a| == |e.name|
  {
    assert TextOf(e, '=') + "" == TextOf(e, '=');
    EndsBeforeBar(TextOf(e, '='), "", a, '=', j);
    CharAt(e, '=', j + |a|);
  }

  lemma SuffixFound(a: string, e: Entry)
    requires Plain(a, '=') && Plain(e.name, '=') && Plain(e.value, '=') && IsSuffix(a, e.name)
    ensures Index(TextOf(e, '='), a + "=") == |e.name| - |a|
  {
    var text, at := TextOf(e, '='), |e.name| - |a|;
    assert text[at..at + |a| + 1] == e.name[at..] + "=";
    forall j: nat | j < at
      ensures !OccursAt(text, a + "=", j)
    {
      if OccursAt(text, a + "=", j) {
        EndsWithName(a, e, j);
      }
    }
    IndexIs(text, a + "=", at);
  }

  /** Where one name ends with another, the shorter reads as the longer and setting it overwrites that. */
  lemma SuffixHides(a: string, b: string, u: string, v: string)
    requires Plain(a, '=') && Plain(b, '=') && Plain(u, '=') && Plain(v, '=') && IsSuffix(a, b)
    ensures GetAxis(b + "=" + u, a) == u
    ensures GetAxis(SetAxis(b + "=" + u, a, v), b) == v
  {
    var e, at := Entry(b, u), |b| - |a|;
    var text, key := TextOf(e, '='), a + "=";
    SuffixFound(a, e);
    assert at + |key| == |b + "="| && text == (b + "=") + (u + "");
    Around(u, "", b + "=");
    assert text[..at] + key + v + "" == TextOf(Entry(b, v), '=') + "" by {
      assert text[..at] == b[..at] && b[..at] + a == b;
    }
    FieldHere(Entry(b, v), '=', "");
    GetAxisIsField(text, a);
    GetAxisIsField(TextOf(Entry(b, v), '='), b);
    assert TextOf(Entry(b, v), '=') + "" == TextOf(Entry(b, v), '=');
  }

  ghost predicate NoSuffixes(names: set<string>) {
    forall a, b :: a in names && b in names && IsSuffix(a, b) ==> a == b
  }

  /** Entries of the given names whose values hold no separator. */
  ghost predicate Over(es: seq<Entry>, names: set<string>) {
    forall k :: 0 <= k < |es| ==> es[k].name in names && Plain(es[k].value, '=')
  }

  /** Reading other after writing name. */
  ghost predicate ReadsBack(es: seq<Entry>, name: string, value: string, other: string) {
    GetAxis(SetAxis(Encode(es, '='), name, value), other)
    == if other == name then value else GetAxis(Encode(es, '='), other)
  }

  /** On every genome over these names, every axis reads back as written and the others as before. */
  ghost predicate Faithful(names: set<string>) {
    forall es, name, value, other :: Over(es, names) && name in names && other in names && Plain(value, '=')
      ==> ReadsBack(es, name, value, other)
  }

  lemma HidesBreaks(names: set<string>, a: string, b: string)
    requires a in names && b in names && Plain(a, '=') && Plain(b, '=') && IsSuffix(a, b) && a != b
    ensures !Faithful(names)
  {
    var es := [Entry(b, "")];
    SuffixHides(a, b, "", "x");
    SuffixHides(b, b, "", "x");
    assert Encode(es, '=') == b + "=" + "";
    assert Over(es, names) && Plain("x", '=') && !ReadsBack(es, a, "x", b);
  }

  /** Names without separators serve as axes of all genomes if and only if none ends with another. */
  lemma FaithfulIff(names: set<string>)
    requires forall a :: a in names ==> Plain(a, '=')
    ensures Faithful(names) <==> NoSuffixes(names)
  {
    if NoSuffixes(names) {
      forall es, name, value, other | Over(es, names) && name in names && other in names && Plain(value, '=')
        ensures ReadsBack(es, name, value, other)
      {
        SetThenGet(es, names, name, value, other);
      }
    } else {
      var a, b :| a in names && b in names && IsSuffix(a, b) && a != b;
      HidesBreaks(names, a, b);
    }
  }
}

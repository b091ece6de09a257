/** The recursive-descent parser of .aice files, against the grammar it accepts. */
module AiceSyntax {
  import opened Wrappers
  import opened Collections

  /** Numbers keep their text; line numbers are left out. */
  datatype Token = Punct(c: char) | Quoted(s: string) | Number(text: string) | Boolean(b: bool) | Ident(s: string)

  // ----- what a file means -----

  datatype Value = Text(s: string) | Numeral(text: string) | Flag(b: bool) | List(items: seq<Value>)

  datatype Decl = Assignment(key: string, value: Value) | Block(kind: string, name: Option<string>, decls: seq<Decl>)

  datatype AiceFile = AiceFile(name: string, decls: seq<Decl>)

  // ----- what it looks like: the grammar, one constructor per production -----

  /** A text value is written as a quoted string or as a bare identifier. */
  datatype ValueTree =
    | QuotedText(s: string)
    | BareText(s: string)
    | NumberTree(text: string)
    | FlagTree(b: bool)
    | ListTree(items: ItemsTree)

  /** What follows an opening bracket or a comma: the end of the list, a last item, or an item, a
      comma and more. So a comma may stand before the end. */
  datatype ItemsTree = End | Last(v: ValueTree) | More(v: ValueTree, rest: ItemsTree)

  datatype DeclTree =
    | AssignTree(key: string, v: ValueTree)
    | BlockTree(kind: string, name: Option<string>, ds: DeclsTree)

  datatype DeclsTree = NoDecls | Decls(d: DeclTree, rest: DeclsTree)

  datatype FileTree = FileTree(name: string, ds: DeclsTree)

  // ----- from tree to meaning -----

  function ValueOf(v: ValueTree): Value {
    match v
    case QuotedText(s) => Text(s)
    case BareText(s) => Text(s)
    case NumberTree(text) => Numeral(text)
    case FlagTree(b) => Flag(b)
    case ListTree(items) => List(ItemsOf(items))
  }

  function ItemsOf(items: ItemsTree): seq<Value> {
    match items
    case End => []
    case Last(v) => [ValueOf(v)]
    case More(v, rest) => [ValueOf(v)] + ItemsOf(rest)
  }

  function DeclOf(d: DeclTree): Decl {
    match d
    case AssignTree(key, v) => Assignment(key, ValueOf(v))
    case BlockTree(kind, name, ds) => Block(kind, name, DeclsOf(ds))
  }

  function DeclsOf(ds: DeclsTree): seq<Decl> {
    match ds
    case NoDecls => []
    case Decls(d, rest) => [DeclOf(d)] + DeclsOf(rest)
  }

  function FileOf(f: FileTree): AiceFile {
    AiceFile(f.name, DeclsOf(f.ds))
  }

  // ----- from tree to tokens -----

  function ValueTokens(v: ValueTree): (ts: seq<Token>)
    ensures ts != [] && ts[0] != Punct(']') && ts[0] != Punct(',')
  {
    match v
    case QuotedText(s) => [Quoted(s)]
    case BareText(s) => [Ident(s)]
    case NumberTree(text) => [Number(text)]
    case FlagTree(b) => [Boolean(b)]
    case ListTree(items) => [Punct('[')] + ItemsTokens(items)
  }

  function ItemsTokens(items: ItemsTree): seq<Token> {
    match items
    case End => [Punct(']')]
    case Last(v) => ValueTokens(v) + [Punct(']')]
    case More(v, rest) => ValueTokens(v) + ([Punct(',')] + ItemsTokens(rest))
  }

  function DeclTokens(d: DeclTree): (ts: seq<Token>)
    ensures ts != [] && ts[0].Ident?
    decreases d, 0
  {
    match d
    case AssignTree(key, v) => [Ident(key), Punct('=')] + (ValueTokens(v) + [Punct(';')])
    case BlockTree(kind, None, ds) => [Ident(kind), Punct('{')] + BodyTokens(ds)
    case BlockTree(kind, Some(name), ds) => [Ident(kind), Ident(name), Punct('{')] + BodyTokens(ds)
  }

  function BodyTokens(ds: DeclsTree): seq<Token>
    decreases ds, 1
  {
    DeclsTokens(ds) + [Punct('}')]
  }

  function DeclsTokens(ds: DeclsTree): seq<Token>
    decreases ds, 0
  {
    match ds
    case NoDecls => []
    case Decls(d, rest) => DeclTokens(d) + DeclsTokens(rest)
  }

  function FileTokens(f: FileTree): seq<Token> {
    [Ident("aice"), Ident(f.name), Punct('{')] + BodyTokens(f.ds)
  }

  // ----- the parser as a function: the tree found and the tokens left over -----

  predicate Starts(ts: seq<Token>, c: char) {
    ts != [] && ts[0] == Punct(c)
  }

  function ParseValue(ts: seq<Token>): (r: Option<(ValueTree, seq<Token>)>)
    ensures r.Some? ==> |r.value.1| < |ts|
    decreases |ts|, 0
  {
    if ts == [] then None
    else
      match ts[0]
      case Quoted(s) => Some((QuotedText(s), ts[1..]))
      case Number(text) => Some((NumberTree(text), ts[1..]))
      case Boolean(b) => Some((FlagTree(b), ts[1..]))
      case Ident(s) => Some((BareText(s), ts[1..]))
      case Punct(c) =>
        if c != '[' then None
        else
          var r := ParseItems(ts[1..]);
          if r.None? then None else Some((ListTree(r.value.0), r.value.1))
  }

  function ParseItems(ts: seq<Token>): (r: Option<(ItemsTree, seq<Token>)>)
    ensures r.Some? ==> |r.value.1| < |ts|
    decreases |ts|, 1
  {
    if Starts(ts, ']') then Some((End, ts[1..]))
    else
      var r := ParseValue(ts);
      if r.None? then None
      else
        var (v, after) := r.value;
        if Starts(after, ',') then
          var more := ParseItems(after[1..]);
          if more.None? then None else Some((More(v, more.value.0), more.value.1))
        else if Starts(after, ']') then Some((Last(v), after[1..]))
        else None
  }

  function ParseDecl(ts: seq<Token>): (r: Option<(DeclTree, seq<Token>)>)
    ensures r.Some? ==> |r.value.1| < |ts|
    decreases |ts|, 0
  {
    if |ts| < 2 || !ts[0].Ident? then None
    else if Starts(ts[1..], '=') then
      var r := ParseValue(ts[2..]);
      if r.None? || !Starts(r.value.1, ';') then None else Some((AssignTree(ts[0].s, r.value.0), r.value.1[1..]))
    else if Starts(ts[1..], '{') then
      var r := ParseBody(ts[2..]);
      if r.None? then None else Some((BlockTree(ts[0].s, None, r.value.0), r.value.1))
    else if ts[1].Ident? && Starts(ts[2..], '{') then
      var r := ParseBody(ts[3..]);
      if r.None? then None else Some((BlockTree(ts[0].s, Some(ts[1].s), r.value.0), r.value.1))
    else None
  }

  /** Declarations up to and including the closing brace. */
  function ParseBody(ts: seq<Token>): (r: Option<(DeclsTree, seq<Token>)>)
    ensures r.Some? ==> |r.value.1| < |ts|
    decreases |ts|, 2
  {
    var r := ParseDecls(ts);
    if r.None? || !Starts(r.value.1, '}') then None else Some((r.value.0, r.value.1[1..]))
  }

  function ParseDecls(ts: seq<Token>): (r: Option<(DeclsTree, seq<Token>)>)
    ensures r.Some? ==> |r.value.1| <= |ts|
    decreases |ts|, 1
  {
    if ts == [] || Starts(ts, '}') then Some((NoDecls, ts))
    else
      var d := ParseDecl(ts);
      if d.None? then None
      else
        var rest := ParseDecls(d.value.1);
        if rest.None? then None else Some((Decls(d.value.0, rest.value.0), rest.value.1))
  }

  function ParseFile(ts: seq<Token>): Option<(FileTree, seq<Token>)> {
    if |ts| < 3 || ts[0] != Ident("aice") || !ts[1].Ident? || ts[2] != Punct('{') then None
    else
      var r := ParseBody(ts[3..]);
      if r.None? then None else Some((FileTree(ts[1].s, r.value.0), r.value.1))
  }

  // ----- what is parsed is what was written -----

  lemma {:induction false} ValueSound(ts: seq<Token>)
    requires ParseValue(ts).Some?
    ensures var (v, rest) := ParseValue(ts).value; ts == ValueTokens(v) + rest
    decreases |ts|, 0
  {
    if ts[0].Punct? {
      ItemsSound(ts[1..]);
    }
  }

  lemma {:induction false} ItemsSound(ts: seq<Token>)
    requires ParseItems(ts).Some?
    ensures var (items, rest) := ParseItems(ts).value; ts == ItemsTokens(items) + rest
    decreases |ts|, 1
  {
    if !Starts(ts, ']') {
      ValueSound(ts);
      var (v, after) := ParseValue(ts).value;
      if Starts(after, ',') {
        ItemsSound(after[1..]);
        var (items, rest) := ParseItems(after[1..]).value;
        assert after == [Punct(',')] + (ItemsTokens(items) + rest);
      } else {
        assert after == [Punct(']')] + after[1..];
      }
    }
  }

  lemma AssignSound(ts: seq<Token>)
    requires ParseDecl(ts).Some? && Starts(ts[1..], '=')
    ensures var (d, rest) := ParseDecl(ts).value; ts == DeclTokens(d) + rest
  {
    ValueSound(ts[2..]);
    var (v, after) := ParseValue(ts[2..]).value;
    assert after == [Punct(';')] + after[1..];
    assert ts == [ts[0], ts[1]] + ts[2..];
  }

  lemma {:induction false} BodySound(ts: seq<Token>)
    requires ParseBody(ts).Some?
    ensures var (ds, rest) := ParseBody(ts).value; ts == BodyTokens(ds) + rest
    decreases |ts|, 2
  {
    DeclsSound(ts);
    var after := ParseDecls(ts).value.1;
    assert after == [Punct('}')] + after[1..];
  }

  lemma {:induction false} DeclSound(ts: seq<Token>)
    requires ParseDecl(ts).Some?
    ensures var (d, rest) := ParseDecl(ts).value; ts == DeclTokens(d) + rest
    decreases |ts|, 0
  {
    if Starts(ts[1..], '=') {
      AssignSound(ts);
    } else if Starts(ts[1..], '{') {
      BodySound(ts[2..]);
      assert ts == [ts[0], ts[1]] + ts[2..];
    } else {
      BodySound(ts[3..]);
      assert ts == [ts[0], ts[1], ts[2]] + ts[3..];
    }
  }

  lemma {:induction false} DeclsSound(ts: seq<Token>)
    requires ParseDecls(ts).Some?
    ensures var (ds, rest) := ParseDecls(ts).value; ts == DeclsTokens(ds) + rest && (rest == [] || Starts(rest, '}'))
    decreases |ts|, 1
  {
    if ts != [] && !Starts(ts, '}') {
      DeclSound(ts);
      var (d, after) := ParseDecl(ts).value;
      DeclsSound(after);
      var (more, rest) := ParseDecls(after).value;
      Regroup(DeclTokens(d), DeclsTokens(more), rest);
    }
  }

  // ----- what is written is parsed -----

  lemma {:induction false} ValueComplete(v: ValueTree, rest: seq<Token>)
    ensures ParseValue(ValueTokens(v) + rest) == Some((v, rest))
    decreases v, 0
  {
    var ts := ValueTokens(v) + rest;
    if v.ListTree? {
      ItemsComplete(v.items, rest);
      assert ts[1..] == ItemsTokens(v.items) + rest;
    } else {
      assert ts[1..] == rest;
    }
  }

  lemma {:induction false} ItemsComplete(items: ItemsTree, rest: seq<Token>)
    ensures ParseItems(ItemsTokens(items) + rest) == Some((items, rest))
    decreases items, 1
  {
    var ts := ItemsTokens(items) + rest;
    match items
    case End =>
      assert ts[1..] == rest;
    case Last(v) =>
      var after := [Punct(']')] + rest;
      assert ts == ValueTokens(v) + after && after[1..] == rest;
      ValueComplete(v, after);
    case More(v, more) =>
      var after := [Punct(',')] + (ItemsTokens(more) + rest);
      assert ts == ValueTokens(v) + after && after[1..] == ItemsTokens(more) + rest;
      ValueComplete(v, after);
      ItemsComplete(more, rest);
  }

  lemma AssignComplete(key: string, v: ValueTree, rest: seq<Token>)
    ensures ParseDecl(DeclTokens(AssignTree(key, v)) + rest) == Some((AssignTree(key, v), rest))
  {
    var ts, after := DeclTokens(AssignTree(key, v)) + rest, [Punct(';')] + rest;
    assert ts[2..] == ValueTokens(v) + after && after[1..] == rest;
    ValueComplete(v, after);
  }

  lemma {:induction false} BodyComplete(ds: DeclsTree, rest: seq<Token>)
    ensures ParseBody(BodyTokens(ds) + rest) == Some((ds, rest))
    decreases ds, 2
  {
    var after := [Punct('}')] + rest;
    assert after[1..] == rest;
    Regroup(DeclsTokens(ds), [Punct('}')], rest);
    DeclsComplete(ds, after);
  }

  lemma {:induction false} DeclComplete(d: DeclTree, rest: seq<Token>)
    ensures ParseDecl(DeclTokens(d) + rest) == Some((d, rest))
    decreases d, 0
  {
    var ts := DeclTokens(d) + rest;
    match d
    case AssignTree(key, v) => AssignComplete(key, v, rest);
    case BlockTree(kind, None, ds) =>
      BodyComplete(ds, rest);
      assert ts[2..] == BodyTokens(ds) + rest;
    case BlockTree(kind, Some(name), ds) =>
      BodyComplete(ds, rest);
      assert ts[3..] == BodyTokens(ds) + rest && ts[2] == Punct('{');
  }

  lemma {:induction false} DeclsComplete(ds: DeclsTree, rest: seq<Token>)
    requires rest == [] || Starts(rest, '}')
    ensures ParseDecls(DeclsTokens(ds) + rest) == Some((ds, rest))
    decreases ds, 1
  {
    match ds
    case NoDecls =>
      assert DeclsTokens(ds) + rest == rest;
    case Decls(d, more) =>
      Regroup(DeclTokens(d), DeclsTokens(more), rest);
      DeclComplete(d, DeclsTokens(more) + rest);
      DeclsComplete(more, rest);
  }

  /** The parser accepts exactly the grammar: it finds a file and leaves the rest of the tokens if
      and only if they are that file's tokens followed by the rest, whatever the rest is. */
  lemma ParsesExactly(ts: seq<Token>, f: FileTree, rest: seq<Token>)
    ensures ParseFile(ts) == Some((f, rest)) <==> ts == FileTokens(f) + rest
  {
    if ParseFile(ts) == Some((f, rest)) {
      BodySound(ts[3..]);
      assert ts == [ts[0], ts[1], ts[2]] + ts[3..];
    }
    if ts == FileTokens(f) + rest {
      BodyComplete(f.ds, rest);
      assert ts[3..] == BodyTokens(f.ds) + rest;
    }
  }

  // ----- the forms, token by token -----

  /** The tokens are one of the ways to write the value; likewise for lists' insides and declarations. */
  ghost predicate ValueReads(ts: seq<Token>, v: Value) {
    exists tree :: ValueTokens(tree) == ts && ValueOf(tree) == v
  }

  ghost predicate ItemsRead(ts: seq<Token>, vs: seq<Value>) {
    exists tree :: ItemsTokens(tree) == ts && ItemsOf(tree) == vs
  }

  ghost predicate DeclReads(ts: seq<Token>, d: Decl) {
    exists tree :: DeclTokens(tree) == ts && DeclOf(tree) == d
  }

  ghost predicate DeclsRead(ts: seq<Token>, ds: seq<Decl>) {
    exists tree :: DeclsTokens(tree) == ts && DeclsOf(tree) == ds
  }

  /** A bare identifier means what the quoted one does. */
  lemma SimpleForms(s: string, text: string, b: bool)
    ensures ValueReads([Quoted(s)], Text(s)) && ValueReads([Ident(s)], Text(s))
    ensures ValueReads([Number(text)], Numeral(text)) && ValueReads([Boolean(b)], Flag(b))
  {
    assert ValueTokens(QuotedText(s)) == [Quoted(s)] && ValueTokens(BareText(s)) == [Ident(s)];
    assert ValueTokens(NumberTree(text)) == [Number(text)] && ValueTokens(FlagTree(b)) == [Boolean(b)];
  }

  /** A list stands in brackets; its items have commas between them, and one may stand behind the last. */
  lemma ListForms(item: seq<Token>, v: Value, rest: seq<Token>, vs: seq<Value>)
    requires ValueReads(item, v) && ItemsRead(rest, vs)
    ensures ValueReads([Punct('[')] + rest, List(vs))
    ensures ItemsRead([Punct(']')], []) && ItemsRead(item + [Punct(']')], [v])
    ensures ItemsRead(item + ([Punct(',')] + rest), [v] + vs)
  {
    var one :| ValueTokens(one) == item && ValueOf(one) == v;
    var more :| ItemsTokens(more) == rest && ItemsOf(more) == vs;
    assert ValueTokens(ListTree(more)) == [Punct('[')] + rest;
    assert ItemsTokens(End) == [Punct(']')];
    assert ItemsTokens(Last(one)) == item + [Punct(']')];
    assert ItemsTokens(More(one, more)) == item + ([Punct(',')] + rest);
  }

  /** Assignments end in a semicolon; blocks stand in braces, with a name before the brace or without. */
  lemma DeclForms(name: string, kind: string, value: seq<Token>, v: Value, body: seq<Token>, ds: seq<Decl>)
    requires ValueReads(value, v) && DeclsRead(body, ds)
    ensures DeclReads([Ident(name), Punct('=')] + (value + [Punct(';')]), Assignment(name, v))
    ensures DeclReads([Ident(kind), Punct('{')] + (body + [Punct('}')]), Block(kind, None, ds))
    ensures DeclReads([Ident(kind), Ident(name), Punct('{')] + (body + [Punct('}')]), Block(kind, Some(name), ds))
  {
    var one :| ValueTokens(one) == value && ValueOf(one) == v;
    var all :| DeclsTokens(all) == body && DeclsOf(all) == ds;
    assert DeclTokens(AssignTree(name, one)) == [Ident(name), Punct('=')] + (value + [Punct(';')]);
    assert DeclTokens(BlockTree(kind, None, all)) == [Ident(kind), Punct('{')] + (body + [Punct('}')]);
    assert DeclTokens(BlockTree(kind, Some(name), all)) ==
           [Ident(kind), Ident(name), Punct('{')] + (body + [Punct('}')]);
  }

  lemma DeclsForms(first: seq<Token>, d: Decl, body: seq<Token>, ds: seq<Decl>)
    requires DeclReads(first, d) && DeclsRead(body, ds)
    ensures DeclsRead([], []) && DeclsRead(first + body, [d] + ds)
  {
    var one :| DeclTokens(one) == first && DeclOf(one) == d;
    var more :| DeclsTokens(more) == body && DeclsOf(more) == ds;
    assert DeclsTokens(NoDecls) == [];
    assert DeclsTokens(Decls(one, more)) == first + body;
  }

  /** A file is the word aice, its name and its declarations in braces; what follows is left over. */
  lemma FileForm(name: string, body: seq<Token>, ds: seq<Decl>, rest: seq<Token>)
    requires DeclsRead(body, ds)
    ensures var r := ParseFile([Ident("aice"), Ident(name), Punct('{')] + (body + [Punct('}')]) + rest);
            r.Some? && FileOf(r.value.0) == AiceFile(name, ds) && r.value.1 == rest
  {
    var all :| DeclsTokens(all) == body && DeclsOf(all) == ds;
    ParsesExactly([Ident("aice"), Ident(name), Punct('{')] + (body + [Punct('}')]) + rest, FileTree(name, all), rest);
  }

  // ----- writing a file down -----

  function Written(v: Value): ValueTree
    decreases v, 0
  {
    match v
    case Text(s) => QuotedText(s)
    case Numeral(text) => NumberTree(text)
    case Flag(b) => FlagTree(b)
    case List(items) => ListTree(WrittenItems(items))
  }

  function WrittenItems(vs: seq<Value>): ItemsTree
    decreases vs, 1
  {
    if vs == [] then End
    else if |vs| == 1 then Last(Written(vs[0]))
    else More(Written(vs[0]), WrittenItems(vs[1..]))
  }

  function WrittenDecl(d: Decl): DeclTree
    decreases d, 0
  {
    match d
    case Assignment(key, v) => AssignTree(key, Written(v))
    case Block(kind, name, ds) => BlockTree(kind, name, WrittenDecls(ds))
  }

  function WrittenDecls(ds: seq<Decl>): DeclsTree
    decreases ds, 1
  {
    if ds == [] then NoDecls else Decls(WrittenDecl(ds[0]), WrittenDecls(ds[1..]))
  }

  lemma {:induction false} WrittenMeans(v: Value)
    ensures ValueOf(Written(v)) == v
    decreases v, 0
  {
    if v.List? {
      WrittenItemsMean(v.items);
    }
  }

  lemma {:induction false} WrittenItemsMean(vs: seq<Value>)
    ensures ItemsOf(WrittenItems(vs)) == vs
    decreases vs, 1
  {
    if vs != [] {
      WrittenMeans(vs[0]);
      WrittenItemsMean(vs[1..]);
      assert vs == [vs[0]] + vs[1..];
    }
  }

  lemma {:induction false} WrittenDeclMeans(d: Decl)
    ensures DeclOf(WrittenDecl(d)) == d
    decreases d, 0
  {
    match d
    case Assignment(_, v) => WrittenMeans(v);
    case Block(_, _, ds) => WrittenDeclsMean(ds);
  }

  lemma {:induction false} WrittenDeclsMean(ds: seq<Decl>)
    ensures DeclsOf(WrittenDecls(ds)) == ds
    decreases ds, 1
  {
    if ds != [] {
      WrittenDeclMeans(ds[0]);
      WrittenDeclsMean(ds[1..]);
      assert ds == [ds[0]] + ds[1..];
    }
  }

  /** The tokens of a file, and what parsing them gives. */
  function Render(f: AiceFile): seq<Token> {
    FileTokens(FileTree(f.name, WrittenDecls(f.decls)))
  }

  /** Parsing inverts rendering, with any tokens behind the file left over. */
  lemma RoundTrip(f: AiceFile, rest: seq<Token>)
    ensures var r := ParseFile(Render(f) + rest);
            r.Some? && FileOf(r.value.0) == f && r.value.1 == rest
  {
    ParsesExactly(Render(f) + rest, FileTree(f.name, WrittenDecls(f.decls)), rest);
    WrittenDeclsMean(f.decls);
  }
}

/** The parser as it runs: a cursor over the tokens, loops over declarations and items. */
module AiceParser {
  import opened Wrappers
  import opened AiceSyntax

  class Parser {
    const t: seq<Token>
    var p: nat

    constructor (tokens: seq<Token>)
      ensures t == tokens && p == 0
    {
      t := tokens;
      p := 0;
    }

    function Rest(): seq<Token>
      requires p <= |t|
      reads this
    {
      t[p..]
    }

    method Peek() returns (tok: Option<Token>)
      requires p <= |t|
      ensures tok == if Rest() == [] then None else Some(Rest()[0])
    {
      tok := if p < |t| then Some(t[p]) else None;
    }

    method EatPunct(c: char) returns (ok: bool)
      requires p <= |t|
      modifies this`p
      ensures p <= |t| && ok == Starts(old(Rest()), c)
      ensures if ok then p == old(p) + 1 && Rest() == old(Rest())[1..] else p == old(p)
    {
      var tok := Peek();
      ok := tok == Some(Punct(c));
      if ok {
        p := p + 1;
      }
    }

    method EatIdent() returns (s: Option<string>)
      requires p <= |t|
      modifies this`p
      ensures p <= |t| && (s.Some? <==> old(Rest()) != [] && old(Rest())[0].Ident?)
      ensures if s.Some? then old(Rest())[0] == Ident(s.value) && p == old(p) + 1
            && Rest() == old(Rest())[1..] else p == old(p)
    {
      var tok := Peek();
      s := None;
      if tok.Some? && tok.value.Ident? {
        s := Some(tok.value.s);
        p := p + 1;
      }
    }

    /** The value at the cursor, which moves past it; None is a syntax error. */
    method Value() returns (r: Option<Value>)
      requires p <= |t|
      modifies this`p
      ensures p <= |t|
      ensures match ParseValue(old(Rest()))
              case None => r == None
              case Some((v, rest)) => r == Some(ValueOf(v)) && Rest() == rest
      decreases |t| - p, 1
    {
      var tok := Peek();
      match tok
      case None => r := None;
      case Some(Quoted(s)) => p := p + 1; r := Some(Text(s));
      case Some(Number(text)) => p := p + 1; r := Some(Numeral(text));
      case Some(Boolean(b)) => p := p + 1; r := Some(Flag(b));
      case Some(Ident(s)) => p := p + 1; r := Some(Text(s));
      case Some(Punct(c)) =>
        if c == '[' {
          r := ListValue();
        } else {
          r := None;
        }
    }

    method ListValue() returns (r: Option<Value>)
      requires p < |t| && t[p] == Punct('[')
      modifies this`p
      ensures p <= |t|
      ensures match ParseItems(old(Rest())[1..])
              case None => r == None
              case Some((items, rest)) => r == Some(List(ItemsOf(items))) && Rest() == rest
      decreases |t| - p, 0
    {
      ghost var start, all := p, ParseItems(Rest()[1..]);
      var bracket := EatPunct('[');
      var out: seq<AiceSyntax.Value> := [];
      while true
        invariant start < p <= |t|
        invariant all.None? <==> ParseItems(Rest()).None?
        invariant all.Some? ==> ItemsOf(all.value.0) == out + ItemsOf(ParseItems(Rest()).value.0)
        invariant all.Some? ==> all.value.1 == ParseItems(Rest()).value.1
        decreases |t| - p
      {
        ghost var here := Rest();
        var closed := EatPunct(']');
        if closed {
          assert out + ItemsOf(End) == out;
          return Some(List(out));
        }
        var v := Value();
        if v.None? {
          return None;
        }
        out := out + [v.value];
        var comma := EatPunct(',');
        if comma {
          continue;
        }
        closed := EatPunct(']');
        return if closed then Some(List(out)) else None;
      }
    }

    /** Declarations up to the end of the tokens or a closing brace. */
    method Declarations() returns (r: Option<seq<Decl>>)
      requires p <= |t|
      modifies this`p
      ensures p <= |t|
      ensures match ParseDecls(old(Rest()))
              case None => r == None
              case Some((ds, rest)) => r == Some(DeclsOf(ds)) && Rest() == rest
      decreases |t| - p, 1
    {
      ghost var start, all := p, ParseDecls(Rest());
      var out: seq<Decl> := [];
      while true
        invariant start <= p <= |t|
        invariant all.None? <==> ParseDecls(Rest()).None?
        invariant all.Some? ==> DeclsOf(all.value.0) == out + DeclsOf(ParseDecls(Rest()).value.0)
        invariant all.Some? ==> all.value.1 == ParseDecls(Rest()).value.1
        decreases |t| - p
      {
        var tok := Peek();
        if tok == None || tok == Some(Punct('}')) {
          assert out + DeclsOf(NoDecls) == out;
          return Some(out);
        }
        var d := Declaration();
        if d.None? {
          return None;
        }
        out := out + [d.value];
      }
    }

    method BlockBody() returns (r: Option<seq<Decl>>)
      requires p <= |t|
      modifies this`p
      ensures p <= |t|
      ensures match ParseBody(old(Rest()))
              case None => r == None
              case Some((ds, rest)) => r == Some(DeclsOf(ds)) && Rest() == rest
      decreases |t| - p, 2
    {
      r := Declarations();
      if r.Some? {
        var closed := EatPunct('}');
        if !closed {
          r := None;
        }
      }
    }

    method Declaration() returns (r: Option<Decl>)
      requires p <= |t|
      modifies this`p
      ensures p <= |t|
      ensures match ParseDecl(old(Rest()))
              case None => r == None
              case Some((d, rest)) => r == Some(DeclOf(d)) && Rest() == rest && p > old(p)
      decreases |t| - p, 0
    {
      ghost var here := Rest();
      var word := EatIdent();
      if word.None? {
        return None;
      }
      var next := Peek();
      assert here[1..] == Rest();
      if next == Some(Punct('=')) {
        r := AssignmentTo(word.value);
      } else if next == Some(Punct('{')) {
        var bracket := EatPunct('{');
        assert here[2..] == Rest();
        var body := BlockBody();
        r := if body.None? then None else Some(Block(word.value, None, body.value));
      } else if next.Some? && next.value.Ident? {
        var name := EatIdent();
        assert here[2..] == Rest();
        var bracket := EatPunct('{');
        if !bracket {
          return None;
        }
        assert here[3..] == Rest();
        var body := BlockBody();
        r := if body.None? then None else Some(Block(word.value, name, body.value));
      } else {
        r := None;
      }
    }

    method AssignmentTo(key: string) returns (r: Option<Decl>)
      requires 1 <= p <= |t| && t[p - 1] == Ident(key) && Starts(Rest(), '=')
      modifies this`p
      ensures p <= |t|
      ensures match ParseDecl([Ident(key)] + old(Rest()))
              case None => r == None
              case Some((d, rest)) => r == Some(DeclOf(d)) && Rest() == rest && p > old(p)
      decreases |t| - p, 0
    {
      ghost var ts := [Ident(key)] + Rest();
      assert ts[1..] == Rest();
      var equals := EatPunct('=');
      assert ts[2..] == Rest();
      var v := Value();
      if v.None? {
        return None;
      }
      var closed := EatPunct(';');
      r := if closed then Some(Assignment(key, v.value)) else None;
    }

    /** The whole file; what stands behind its closing brace is not looked at. */
    method File() returns (r: Option<AiceFile>)
      requires p <= |t|
      modifies this`p
      ensures p <= |t|
      ensures match ParseFile(old(Rest()))
              case None => r == None
              case Some((f, rest)) => r == Some(FileOf(f)) && Rest() == rest
    {
      ghost var here := Rest();
      var word := EatIdent();
      if word != Some("aice") {
        return None;
      }
      var name := EatIdent();
      if name.None? {
        return None;
      }
      assert here[2..] == Rest();
      var bracket := EatPunct('{');
      if !bracket {
        return None;
      }
      assert here[3..] == Rest();
      var body := BlockBody();
      r := if body.None? then None else Some(AiceFile(name.value, body.value));
    }
  }
}

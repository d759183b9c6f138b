/** Texts of the startup condition language: which are accepted and with which tree, which hang the
    parser, and which trees can panic. About base/settings/condition.go. */
module ConditionTexts {
  import opened Condition

  // ---- printed expressions ------------------------------------------------------------------

  /** A tree laid out on a line, with the number of spaces in front of and between its tokens. A bare
      word has no argument list, a node has at least one argument, a hole is an argument left out. */
  datatype Doc =
    | Bare(pre: nat, word: string)
    | Hole(pre: nat)
    | Node(pre: nat, word: string, gap: nat, args: Docs)
  datatype Docs = One(doc: Doc, post: nat) | More(doc: Doc, post: nat, rest: Docs)

  ghost function Spaces(n: nat): string {
    seq(n, _ => ' ')
  }

  ghost function Render(d: Doc): string {
    match d
    case Bare(pre, word) => Spaces(pre) + word
    case Hole(pre) => Spaces(pre)
    case Node(pre, word, gap, args) => Spaces(pre) + (word + (Spaces(gap) + ("(" + RenderAll(args))))
  }

  /** An argument list with its closing bracket. */
  ghost function RenderAll(ds: Docs): string {
    match ds
    case One(d, post) => Render(d) + (Spaces(post) + ")")
    case More(d, post, rest) => Render(d) + (Spaces(post) + ("," + RenderAll(rest)))
  }

  ghost function TreeOf(d: Doc): Expr {
    match d
    case Bare(_, word) => Build(Lookup(word), [])
    case Hole(_) => Nil
    case Node(_, word, _, args) => Build(Lookup(word), TreesOf(args))
  }

  ghost function TreesOf(ds: Docs): seq<Expr> {
    match ds
    case One(d, _) => [TreeOf(d)]
    case More(d, _, rest) => [TreeOf(d)] + TreesOf(rest)
  }

  ghost predicate IsWord(w: string) {
    w != "" && forall i :: 0 <= i < |w| ==> IsWordChar(w[i])
  }

  ghost predicate WellFormed(d: Doc) {
    match d
    case Bare(_, word) => IsWord(word)
    case Hole(_) => true
    case Node(_, word, _, args) => IsWord(word) && AllWellFormed(args)
  }

  ghost predicate AllWellFormed(ds: Docs) {
    match ds
    case One(d, _) => WellFormed(d)
    case More(d, _, rest) => WellFormed(d) && AllWellFormed(rest)
  }

  /** One turn of `getOne` behind a word with no argument list. */
  lemma OneBare(from: nat, s: string, at: nat, end: nat, next: nat)
    requires from <= |s| && at < end <= |s| && next <= |s|
    requires Forward(from, s) == at && WordEnd(at, s) == end && Forward(end, s) == next
    requires next == |s| || s[next] != '('
    ensures GetOne(from, s) == Got(Build(Lookup(s[at..end]), []), next, next == |s|)
  {
  }

  /** One turn of `getOne` behind a word and an opening bracket that is not the last character. */
  lemma OneNode(from: nat, s: string, at: nat, end: nat, open: nat)
    requires from <= |s| && at < end <= |s| && open < |s| - 1 && s[open] == '('
    requires Forward(from, s) == at && WordEnd(at, s) == end && Forward(end, s) == open
    ensures GetOne(from, s) == GetArgs(Lookup(s[at..end]), open, s, [])
  {
  }

  /** What may follow a printed expression: `k` spaces, then nothing, a comma or a closing bracket. */
  ghost predicate Follows(s: string, end: nat, k: nat) {
    && end + k <= |s| && (forall i :: end <= i < end + k ==> s[i] == ' ')
    && (end + k == |s| || s[end + k] == ',' || s[end + k] == ')')
  }

  lemma {:induction false} NonSpaceAfter(from: nat, s: string, k: nat)
    requires from + k <= |s| && (forall i :: from <= i < from + k ==> s[i] == ' ')
    requires from + k == |s| || s[from + k] != ' '
    ensures NonSpace(from, s) == if from + k == |s| then Nowhere else At(from + k)
    decreases k
  {
    if k > 0 {
      NonSpaceAfter(from + 1, s, k - 1);
    }
  }

  lemma {:induction false} WordEndAfter(from: nat, s: string, n: nat)
    requires from + n <= |s| && (forall i :: from <= i < from + n ==> IsWordChar(s[i]))
    requires from + n == |s| || !IsWordChar(s[from + n])
    ensures WordEnd(from, s) == from + n
    decreases n
  {
    if n > 0 {
      WordEndAfter(from + 1, s, n - 1);
    }
  }

  /** `text` stands in `s` at `from`. */
  ghost predicate Here(s: string, from: nat, text: string) {
    from + |text| <= |s| && forall i :: 0 <= i < |text| ==> s[from + i] == text[i]
  }

  lemma SplitHere(s: string, from: nat, a: string, b: string)
    requires Here(s, from, a + b)
    ensures Here(s, from, a) && Here(s, from + |a|, b)
  {
    assert forall i :: 0 <= i < |a| ==> (a + b)[i] == a[i];
    assert forall i :: 0 <= i < |b| ==> (a + b)[|a| + i] == b[i];
  }

  lemma SpacesHere(s: string, from: nat, n: nat)
    requires Here(s, from, Spaces(n))
    ensures forall i :: from <= i < from + n ==> s[i] == ' '
  {
    forall i | from <= i < from + n ensures s[i] == ' ' {
      assert s[from + (i - from)] == Spaces(n)[i - from];
    }
  }

  /** Reading a word with leading spaces. */
  lemma ReadWord(s: string, from: nat, pre: nat, word: string)
    requires Here(s, from, Spaces(pre)) && Here(s, from + pre, word) && IsWord(word)
    requires from + pre + |word| == |s| || !IsWordChar(s[from + pre + |word|])
    ensures Forward(from, s) == from + pre
    ensures WordEnd(from + pre, s) == from + pre + |word|
    ensures s[from + pre..from + pre + |word|] == word
  {
    SpacesHere(s, from, pre);
    var at := from + pre;
    forall i | at <= i < at + |word| ensures IsWordChar(s[i]) {
      assert s[at + (i - at)] == word[i - at];
    }
    NonSpaceAfter(from, s, pre);
    WordEndAfter(at, s, |word|);
  }

  /** A printed expression followed by what may follow it: the parser returns its tree and stops at
      its end, or, behind a bare word, possibly past the spaces that follow. */
  lemma {:induction false} ParseDoc(s: string, from: nat, d: Doc, k: nat)
    requires WellFormed(d) && Here(s, from, Render(d)) && Follows(s, from + |Render(d)|, k)
    requires d.Hole? ==> from + |Render(d)| + k < |s|
    ensures var r := GetOne(from, s);
      var end := from + |Render(d)|;
      && r.Got? && r.exp == TreeOf(d) && r.eol == (end == |s|)
      && end <= r.next <= end + k && (end + k == |s| ==> r.next == end)
    decreases d
  {
    hide GetOne, GetArgs;
    if d.Bare? {
      ParseBare(s, from, d, k);
    } else if d.Hole? {
      ParseHole(s, from, d, k);
    } else {
      ReadNodeHead(s, from, d);
      ParseDocs(s, from + d.pre + |d.word| + d.gap, Lookup(d.word), d.args, []);
      assert [] + TreesOf(d.args) == TreesOf(d.args);
    }
  }

  /** Skipping spaces in front of something that is none, or staying put at the end. */
  lemma ForwardAfter(s: string, end: nat, k: nat)
    requires Follows(s, end, k)
    ensures Forward(end, s) == if end + k == |s| then end else end + k
  {
    NonSpaceAfter(end, s, k);
  }

  lemma ReadBare(s: string, from: nat, d: Doc, k: nat)
    requires d.Bare? && WellFormed(d) && Here(s, from, Render(d)) && Follows(s, from + |Render(d)|, k)
    ensures var at, end := from + d.pre, from + d.pre + |d.word|;
      && end == from + |Render(d)| <= |s| && s[at..end] == d.word
      && Forward(from, s) == at && WordEnd(at, s) == end && Forward(end, s) == (if end + k == |s| then end else end + k)
      && end + k <= |s| && (Forward(end, s) == |s| || s[Forward(end, s)] != '(')
  {
    hide WordEnd, Here, Forward;
    SplitHere(s, from, Spaces(d.pre), d.word);
    var end := from + d.pre + |d.word|;
    assert end < |s| ==> !IsWordChar(s[end]) && s[end] != '(';
    ReadWord(s, from, d.pre, d.word);
    ForwardAfter(s, end, k);
  }

  lemma ParseBare(s: string, from: nat, d: Doc, k: nat)
    requires d.Bare? && WellFormed(d) && Here(s, from, Render(d)) && Follows(s, from + |Render(d)|, k)
    ensures var end := from + |Render(d)|;
      GetOne(from, s) == Got(TreeOf(d), if end + k == |s| then end else end + k, end == |s|)
  {
    hide GetOne, WordEnd, Here, Forward, Lookup, Render, Follows;
    ReadBare(s, from, d, k);
    var end := from + d.pre + |d.word|;
    OneBare(from, s, from + d.pre, end, Forward(end, s));
  }

  lemma ParseHole(s: string, from: nat, d: Doc, k: nat)
    requires d.Hole? && Here(s, from, Render(d)) && Follows(s, from + |Render(d)|, k) && from + |Render(d)| + k < |s|
    ensures GetOne(from, s) == Got(Nil, from + |Render(d)| + k, false)
  {
    SpacesHere(s, from, d.pre);
    NonSpaceAfter(from, s, d.pre + k);
  }

  /** On a node the parser reads the word and the opening bracket and enters the argument loop. */
  lemma ReadNodeHead(s: string, from: nat, d: Doc)
    requires d.Node? && WellFormed(d) && Here(s, from, Render(d))
    ensures var open := from + d.pre + |d.word| + d.gap;
      && open < |s| && GetOne(from, s) == GetArgs(Lookup(d.word), open, s, [])
      && Here(s, open + 1, RenderAll(d.args))
      && open + 1 + |RenderAll(d.args)| == from + |Render(d)|
  {
    hide GetOne, GetArgs, Render, RenderAll, Here, Forward, WordEnd, AllWellFormed;
    SplitNode(s, from, d);
    ReadBracket(s, from, d.pre, d.word, d.gap);
    var end := from + d.pre + |d.word|;
    ListEdge(d.args);
    OneNode(from, s, from + d.pre, end, end + d.gap);
  }

  lemma ReadBracket(s: string, from: nat, pre: nat, word: string, gap: nat)
    requires Here(s, from, Spaces(pre)) && Here(s, from + pre, word) && IsWord(word)
    requires Here(s, from + pre + |word|, Spaces(gap))
    requires from + pre + |word| + gap < |s| && s[from + pre + |word| + gap] == '('
    ensures var at, end := from + pre, from + pre + |word|;
      Forward(from, s) == at && WordEnd(at, s) == end && Forward(end, s) == end + gap && s[at..end] == word
  {
    var end := from + pre + |word|;
    SpacesHere(s, end, gap);
    assert !IsWordChar(s[end]);
    ReadWord(s, from, pre, word);
    NonSpaceAfter(end, s, gap);
  }

  /** The pieces of a printed node, one after the other. */
  lemma SplitNode(s: string, from: nat, d: Doc)
    requires d.Node? && Here(s, from, Render(d))
    ensures Here(s, from, Spaces(d.pre)) && Here(s, from + d.pre, d.word)
    ensures var at := from + d.pre + |d.word|;
      && Here(s, at, Spaces(d.gap)) && at + d.gap < |s| && s[at + d.gap] == '('
      && Here(s, at + d.gap + 1, RenderAll(d.args))
      && at + d.gap + 1 + |RenderAll(d.args)| == from + |Render(d)|
  {
    var inner := RenderAll(d.args);
    var at := from + d.pre + |d.word|;
    SplitHere(s, from, Spaces(d.pre), d.word + (Spaces(d.gap) + ("(" + inner)));
    SplitHere(s, from + d.pre, d.word, Spaces(d.gap) + ("(" + inner));
    SplitHere(s, at, Spaces(d.gap), "(" + inner);
    SplitHere(s, at + d.gap, "(", inner);
    assert s[at + d.gap + 0] == "("[0];
  }

  lemma {:induction false} ParseDocs(s: string, next: nat, head: Head, ds: Docs, acc: seq<Expr>)
    requires next < |s| && AllWellFormed(ds) && Here(s, next + 1, RenderAll(ds))
    ensures var end := next + 1 + |RenderAll(ds)|;
      GetArgs(head, next, s, acc) == Got(Build(head, acc + TreesOf(ds)), end, end == |s|)
    decreases ds
  {
    hide GetOne, GetArgs;
    var n, m := ReadArg(s, next, ds);
    ArgTurn(head, next, s, acc);
    if ds.More? {
      ParseDocs(s, m, head, ds.rest, acc + [TreeOf(ds.doc)]);
      assert acc + [TreeOf(ds.doc)] + TreesOf(ds.rest) == acc + TreesOf(ds);
    }
  }

  /** The first argument of a list: where the parser stops, and the mark it then looks at. */
  lemma {:induction false} ReadArg(s: string, next: nat, ds: Docs) returns (n: nat, m: nat)
    requires next < |s| && AllWellFormed(ds) && Here(s, next + 1, RenderAll(ds))
    ensures next < n <= m < |s| && GetOne(next + 1, s) == Got(TreeOf(ds.doc), n, false) && NonSpace(n, s) == At(m)
    ensures s[m] == (if ds.One? then ')' else ',')
    ensures next + 1 + |RenderAll(ds)| == m + 1 + if ds.One? then 0 else |RenderAll(ds.rest)|
    ensures ds.More? ==> Here(s, m + 1, RenderAll(ds.rest))
    decreases ds, 0
  {
    hide GetOne, GetArgs;
    SplitDocs(s, next + 1, ds);
    ParseDoc(s, next + 1, ds.doc, ds.post);
    m := next + 1 + |Render(ds.doc)| + ds.post;
    n := GetOne(next + 1, s).next;
    NonSpaceAfter(n, s, m - n);
  }

  /** What stands behind the first argument of a list and its spaces. */
  ghost function ListTail(ds: Docs): string {
    if ds.One? then ")" else "," + RenderAll(ds.rest)
  }

  lemma ListIs(ds: Docs)
    ensures RenderAll(ds) == Render(ds.doc) + (Spaces(ds.post) + ListTail(ds))
    ensures ListTail(ds) != "" && ListTail(ds)[0] == if ds.One? then ')' else ','
  {
  }

  /** The pieces of a printed argument list. */
  lemma SplitDocs(s: string, from: nat, ds: Docs)
    requires Here(s, from, RenderAll(ds))
    ensures var end := from + |Render(ds.doc)|;
      && Here(s, from, Render(ds.doc)) && end + ds.post < |s| && Follows(s, end, ds.post)
      && s[end + ds.post] == (if ds.One? then ')' else ',')
      && (ds.More? ==> Here(s, end + ds.post + 1, RenderAll(ds.rest)))
      && from + |RenderAll(ds)| == end + ds.post + 1 + if ds.One? then 0 else |RenderAll(ds.rest)|
  {
    hide Render, RenderAll;
    ListIs(ds);
    var end, tail := from + |Render(ds.doc)|, ListTail(ds);
    SplitHere(s, from, Render(ds.doc), Spaces(ds.post) + tail);
    SplitHere(s, end, Spaces(ds.post), tail);
    SpacesHere(s, end, ds.post);
    assert s[end + ds.post + 0] == tail[0];
    if ds.More? {
      SplitHere(s, end + ds.post, ",", RenderAll(ds.rest));
    }
  }

  /** Print then parse: any layout of a tree parses back to that tree, exactly when no space trails it;
      so `Examine` agrees with the meaning of the printed tree on every input. */
  lemma RoundTrip(d: Doc, trailing: nat)
    requires WellFormed(d) && !d.Hole?
    ensures GetExpression(Render(d) + Spaces(trailing)) == if trailing == 0 then Ok(TreeOf(d)) else SyntaxError
    ensures forall input :: Examine(TreeOf(d), input) == Judgement(TreeOf(d), input)
  {
    var s := Render(d) + Spaces(trailing);
    ParseDoc(s, 0, d, trailing);
    RenderNotEmpty(d);
    TreeNotNil(d);
    forall input ensures Examine(TreeOf(d), input) == Judgement(TreeOf(d), input) {
      ExamineIsMeaning(TreeOf(d), input);
    }
  }

  lemma RenderNotEmpty(d: Doc)
    requires WellFormed(d) && !d.Hole?
    ensures Render(d) != ""
  {
  }

  lemma TreeNotNil(d: Doc)
    ensures TreeOf(d) == Nil <==> d.Hole?
  {
  }

  /** The trees that can be written down: names are words that are no keyword. */
  ghost predicate Printable(e: Expr) {
    match e
    case And(args) => forall a :: a in args ==> Printable(a)
    case Or(args) => forall a :: a in args ==> Printable(a)
    case Not(args) => forall a :: a in args ==> Printable(a)
    case User(name) => IsWord(name) && name !in {"true", "false", "and", "or", "not"}
    case Bool(_) => true
    case Nil => true
  }

  /** The layout carries the words of the tree: one keyword per constructor, and the names themselves. */
  ghost predicate Spells(d: Doc, e: Expr)
    decreases e, 1
  {
    match e
    case Bool(b) => d.Bare? && d.word == if b then "true" else "false"
    case User(name) => d.Bare? && d.word == name
    case And(args) => SpellsList(d, "and", args)
    case Or(args) => SpellsList(d, "or", args)
    case Not(args) => SpellsList(d, "not", args)
    case Nil => d.Hole?
  }

  ghost predicate SpellsList(d: Doc, word: string, args: seq<Expr>)
    decreases args, 1
  {
    !d.Hole? && d.word == word && if args == [] then d.Bare? else d.Node? && SpellsAll(d.args, args)
  }

  ghost predicate SpellsAll(ds: Docs, args: seq<Expr>)
    decreases args, 0
  {
    && args != [] && Spells(ds.doc, args[0])
    && if ds.One? then |args| == 1 else SpellsAll(ds.rest, args[1..])
  }

  /** Every printable tree has a layout in its own words, nil children included, so the round trip covers
      all of them. */
  lemma {:induction false} EveryTreePrints(e: Expr) returns (d: Doc)
    requires Printable(e)
    ensures WellFormed(d) && TreeOf(d) == e && (d.Hole? <==> e.Nil?) && Spells(d, e)
    decreases e, 1
  {
    match e {
      case Bool(b) => d := Bare(0, if b then "true" else "false");
      case User(name) => d := Bare(0, name);
      case And(args) => d := ListPrints("and", args);
      case Or(args) => d := ListPrints("or", args);
      case Not(args) => d := ListPrints("not", args);
      case Nil => d := Hole(0);
    }
  }

  lemma {:induction false} ListPrints(word: string, args: seq<Expr>) returns (d: Doc)
    requires word in {"and", "or", "not"} && forall a :: a in args ==> Printable(a)
    ensures WellFormed(d) && TreeOf(d) == Build(Lookup(word), args) && SpellsList(d, word, args)
    decreases args, 1
  {
    if args == [] {
      d := Bare(0, word);
    } else {
      var ds := AllPrint(args);
      d := Node(0, word, 0, ds);
    }
  }

  lemma {:induction false} AllPrint(args: seq<Expr>) returns (ds: Docs)
    requires args != [] && forall a :: a in args ==> Printable(a)
    ensures AllWellFormed(ds) && TreesOf(ds) == args && SpellsAll(ds, args)
    decreases args, 0
  {
    var d := EveryTreePrints(args[0]);
    if |args| == 1 {
      ds := One(d, 0);
    } else {
      var rest := AllPrint(args[1..]);
      ds := More(d, 0, rest);
    }
  }

  // ---- every accepted text is a layout ---------------------------------------------------------

  /** One turn of `getOne`. */
  lemma OneTurn(from: nat, s: string)
    requires from <= |s|
    ensures var at := Forward(from, s);
      var end := WordEnd(at, s);
      var next := Forward(end, s);
      GetOne(from, s) ==
        if end == at then Got(Nil, at, false)
        else if next < |s| - 1 && s[next] == '(' then GetArgs(Lookup(s[at..end]), next, s, [])
        else Got(Build(Lookup(s[at..end]), []), next, next >= |s|)
  {
  }

  lemma {:induction false} ArgsEnd(head: Head, next: nat, s: string, args: seq<Expr>)
    requires next < |s|
    ensures var r := GetArgs(head, next, s, args);
      r.Got? ==> next < r.next <= |s| && s[r.next - 1] == ')' && r.eol == (r.next == |s|)
    decreases |s| - next
  {
    hide GetOne, GetArgs;
    ArgTurn(head, next, s, args);
    var sub := GetOne(next + 1, s);
    if sub.Got? && !sub.eol {
      var m := if NonSpace(sub.next, s).At? then NonSpace(sub.next, s).pos else sub.next - 1;
      if s[m] == ',' && m != next {
        ArgsEnd(head, m, s, args + [sub.exp]);
      }
    }
  }

  /** Where an expression ends: the end-of-line mark tells the end of the text, and in front of
      nothing but spaces stands a word or a closing bracket. */
  lemma OneEnds(from: nat, s: string)
    requires from <= |s|
    ensures var r := GetOne(from, s);
      r.Got? ==>
        && (r.eol ==> r.next == |s|) && (r.next == |s| && !r.eol ==> from == |s|)
        && (r.next > from && NonSpace(r.next, s).Nowhere? ==> s[r.next - 1] == ')' || IsWordChar(s[r.next - 1]))
  {
    hide GetOne, GetArgs;
    OneTurn(from, s);
    var at := Forward(from, s);
    var end := WordEnd(at, s);
    var next := Forward(end, s);
    if end > at && next < |s| {
      ArgsEnd(Lookup(s[at..end]), next, s, []);
    }
  }

  lemma HereSpaces(s: string, from: nat, to: nat)
    requires from <= to <= |s| && forall i :: from <= i < to ==> s[i] == ' '
    ensures Here(s, from, Spaces(to - from))
  {
  }

  lemma HereText(s: string, from: nat, to: nat)
    requires from <= to <= |s|
    ensures Here(s, from, s[from..to])
  {
  }

  lemma JoinHere(s: string, from: nat, a: string, b: string)
    requires Here(s, from, a) && Here(s, from + |a|, b)
    ensures Here(s, from, a + b)
  {
    forall i | 0 <= i < |a + b| ensures s[from + i] == (a + b)[i] {
      if i >= |a| {
        assert s[from + |a| + (i - |a|)] == b[i - |a|];
      }
    }
  }

  /** The rest of the text behind `next`, if any, is not all spaces. */
  ghost predicate GoesOn(next: nat, eol: bool, s: string)
    requires next <= |s|
  {
    eol || NonSpace(next, s).At?
  }

  ghost predicate Blank(s: string, from: nat, to: nat) {
    to <= |s| && forall i :: from <= i < to ==> s[i] == ' '
  }

  /** The layout of a word that was read. */
  lemma WordIsLayout(s: string, from: nat, at: nat, end: nat)
    requires from <= at < end <= |s| && Blank(s, from, at) && forall i :: at <= i < end ==> IsWordChar(s[i])
    ensures var d := Bare(at - from, s[at..end]);
      WellFormed(d) && Here(s, from, Render(d)) && |Render(d)| == end - from
  {
    HereSpaces(s, from, at);
    HereText(s, at, end);
    JoinHere(s, from, Spaces(at - from), s[at..end]);
  }

  /** The layout of a word with an argument list. */
  lemma NodeIsLayout(s: string, from: nat, at: nat, end: nat, open: nat, ds: Docs)
    requires from <= at < end <= open < |s| && Blank(s, from, at) && forall i :: at <= i < end ==> IsWordChar(s[i])
    requires Blank(s, end, open) && s[open] == '(' && AllWellFormed(ds) && Here(s, open + 1, RenderAll(ds))
    ensures var d := Node(at - from, s[at..end], open - end, ds);
      WellFormed(d) && Here(s, from, Render(d)) && from + |Render(d)| == open + 1 + |RenderAll(ds)|
  {
    hide Here, RenderAll, AllWellFormed;
    var list := RenderAll(ds);
    HereText(s, open, open + 1);
    assert s[open..open + 1] == "(";
    JoinHere(s, open, "(", list);
    HereSpaces(s, end, open);
    JoinHere(s, end, Spaces(open - end), "(" + list);
    HereText(s, at, end);
    JoinHere(s, at, s[at..end], Spaces(open - end) + ("(" + list));
    HereSpaces(s, from, at);
    JoinHere(s, from, Spaces(at - from), s[at..end] + (Spaces(open - end) + ("(" + list)));
  }

  /** Every expression the parser reads, not at the front of nothing but spaces, is a layout. */
  lemma {:induction false} ReadIsLayout(from: nat, s: string) returns (d: Doc)
    requires from <= |s| && GetOne(from, s).Got? && GoesOn(GetOne(from, s).next, GetOne(from, s).eol, s)
    ensures var r := GetOne(from, s);
      var end := from + |Render(d)|;
      && WellFormed(d) && Here(s, from, Render(d)) && TreeOf(d) == r.exp
      && end <= r.next && Blank(s, end, r.next) && (r.eol ==> end == r.next)
    decreases |s| - from, 0
  {
    hide GetOne, GetArgs, Render, WellFormed, RenderAll, AllWellFormed;
    OneTurn(from, s);
    var at := Forward(from, s);
    var end := WordEnd(at, s);
    var next := Forward(end, s);
    if end == at {
      HereSpaces(s, from, at);
      HoleIsLayout(at - from);
      d := Hole(at - from);
    } else if next < |s| - 1 && s[next] == '(' {
      var ds := ArgsAreLayout(Lookup(s[at..end]), next, s, []);
      NodeIsLayout(s, from, at, end, next, ds);
      d := Node(at - from, s[at..end], next - end, ds);
      assert [] + TreesOf(ds) == TreesOf(ds);
    } else {
      WordIsLayout(s, from, at, end);
      d := Bare(at - from, s[at..end]);
    }
  }

  lemma HoleIsLayout(pre: nat)
    ensures WellFormed(Hole(pre)) && Render(Hole(pre)) == Spaces(pre)
  {
  }

  /** What the argument loop does once it is not at the end: it stands behind a layout, on its mark. */
  lemma {:induction false} ArgIsLayout(next: nat, s: string) returns (d: Doc, m: nat)
    requires next < |s| && GetOne(next + 1, s).Got? && NonSpace(GetOne(next + 1, s).next, s).At?
    ensures m == NonSpace(GetOne(next + 1, s).next, s).pos
    ensures WellFormed(d) && Here(s, next + 1, Render(d)) && TreeOf(d) == GetOne(next + 1, s).exp
    ensures next + 1 + |Render(d)| <= m && Blank(s, next + 1 + |Render(d)|, m)
    decreases |s| - next - 1, 1
  {
    hide GetOne, GetArgs, Render, WellFormed;
    d := ReadIsLayout(next + 1, s);
    m := NonSpace(GetOne(next + 1, s).next, s).pos;
  }

  lemma OneIsLayout(s: string, next: nat, d: Doc, m: nat)
    requires next < m < |s| && WellFormed(d) && Here(s, next + 1, Render(d)) && s[m] == ')'
    requires next + 1 + |Render(d)| <= m && Blank(s, next + 1 + |Render(d)|, m)
    ensures var ds := One(d, m - next - 1 - |Render(d)|);
      AllWellFormed(ds) && Here(s, next + 1, RenderAll(ds)) && next + 1 + |RenderAll(ds)| == m + 1
  {
    var end := next + 1 + |Render(d)|;
    HereSpaces(s, end, m);
    HereText(s, m, m + 1);
    assert s[m..m + 1] == ")";
    JoinHere(s, end, Spaces(m - end), ")");
    JoinHere(s, next + 1, Render(d), Spaces(m - end) + ")");
  }

  lemma MoreIsLayout(s: string, next: nat, d: Doc, m: nat, rest: Docs)
    requires next < m < |s| && WellFormed(d) && Here(s, next + 1, Render(d)) && s[m] == ','
    requires next + 1 + |Render(d)| <= m && Blank(s, next + 1 + |Render(d)|, m)
    requires AllWellFormed(rest) && Here(s, m + 1, RenderAll(rest))
    ensures var ds := More(d, m - next - 1 - |Render(d)|, rest);
      AllWellFormed(ds) && Here(s, next + 1, RenderAll(ds)) && next + 1 + |RenderAll(ds)| == m + 1 + |RenderAll(rest)|
  {
    var end := next + 1 + |Render(d)|;
    HereSpaces(s, end, m);
    HereText(s, m, m + 1);
    assert s[m..m + 1] == ",";
    JoinHere(s, m, ",", RenderAll(rest));
    JoinHere(s, end, Spaces(m - end), "," + RenderAll(rest));
    JoinHere(s, next + 1, Render(d), Spaces(m - end) + ("," + RenderAll(rest)));
  }

  lemma {:induction false} ArgsAreLayout(head: Head, next: nat, s: string, args: seq<Expr>) returns (ds: Docs)
    requires next < |s| && (s[next] == '(' || s[next] == ',')
    requires var r := GetArgs(head, next, s, args); r.Got? && GoesOn(r.next, r.eol, s)
    ensures var r := GetArgs(head, next, s, args);
      && AllWellFormed(ds) && Here(s, next + 1, RenderAll(ds))
      && r.exp == Build(head, args + TreesOf(ds)) && r.next == next + 1 + |RenderAll(ds)|
    decreases |s| - next, 1
  {
    hide GetOne, GetArgs, Render, WellFormed, RenderAll, AllWellFormed;
    ArgTurn(head, next, s, args);
    OneEnds(next + 1, s);
    var sub := GetOne(next + 1, s);
    assert NonSpace(sub.next, s).At?;
    var d, m := ArgIsLayout(next, s);
    if s[m] == ')' {
      OneIsLayout(s, next, d, m);
      ds := One(d, m - next - 1 - |Render(d)|);
    } else {
      var rest := ArgsAreLayout(head, m, s, args + [sub.exp]);
      MoreIsLayout(s, next, d, m, rest);
      ds := More(d, m - next - 1 - |Render(d)|, rest);
      assert args + [sub.exp] + TreesOf(rest) == args + TreesOf(ds);
    }
  }

  ghost predicate IsLayout(d: Doc, s: string) {
    WellFormed(d) && !d.Hole? && Render(d) == s
  }

  lemma HereAll(s: string, text: string)
    requires Here(s, 0, text) && |text| == |s|
    ensures text == s
  {
    assert forall i :: 0 <= i < |text| ==> s[0 + i] == text[i];
  }

  /** A text is accepted exactly when it is a layout with nothing behind it, and with the tree of that
      layout; the empty text is `true`. */
  lemma AcceptedIff(s: string, e: Expr)
    ensures GetExpression(s) == Ok(e) <==>
      if s == "" then e == Bool(true) else exists d :: IsLayout(d, s) && TreeOf(d) == e
  {
    hide GetOne, GetArgs, Render, WellFormed;
    if s != "" {
      if GetExpression(s) == Ok(e) {
        var d := ReadIsLayout(0, s);
        OneEnds(0, s);
        HereAll(s, Render(d));
        TreeNotNil(d);
        assert IsLayout(d, s);
      }
      if d :| IsLayout(d, s) && TreeOf(d) == e {
        RoundTrip(d, 0);
        assert s + Spaces(0) == s;
      }
    }
  }

  /** No argument of a keyword is left out; what a name or a constant carries as arguments is dropped. */
  ghost predicate Firm(d: Doc) {
    match d
    case Bare(_, _) => true
    case Hole(_) => false
    case Node(_, word, _, args) => word !in {"and", "or", "not"} || AllFirm(args)
  }

  ghost predicate AllFirm(ds: Docs) {
    match ds
    case One(d, _) => Firm(d)
    case More(d, _, rest) => Firm(d) && AllFirm(rest)
  }

  lemma {:induction false} SolidIffFirm(d: Doc)
    ensures Solid(TreeOf(d)) <==> Firm(d)
    decreases d
  {
    if d.Node? {
      hide Lookup;
      AllSolidIffFirm(d.args);
    }
  }

  lemma {:induction false} AllSolidIffFirm(ds: Docs)
    ensures (forall e :: e in TreesOf(ds) ==> Solid(e)) <==> AllFirm(ds)
    decreases ds
  {
    hide Solid;
    SolidIffFirm(ds.doc);
    assert TreeOf(ds.doc) in TreesOf(ds);
    if ds.More? {
      AllSolidIffFirm(ds.rest);
      assert TreesOf(ds) == [TreeOf(ds.doc)] + TreesOf(ds.rest);
    }
  }

  /** An accepted text gives a tree without nil children exactly when its layout leaves out no argument
      of a keyword; `Examine` then never panics. */
  lemma SolidTextIff(s: string, e: Expr)
    requires s != "" && GetExpression(s) == Ok(e)
    ensures Solid(e) <==> exists d :: IsLayout(d, s) && Firm(d)
    ensures Solid(e) ==> forall input :: Examine(e, input) == Holds(Meaning(e, input))
  {
    hide IsLayout, Firm, Solid, GetExpression, TreeOf, Examine, Meaning, ReachesNil;
    AcceptedIff(s, e);
    var d :| IsLayout(d, s) && TreeOf(d) == e;
    SolidIffFirm(d);
    if d' :| IsLayout(d', s) && Firm(d') {
      AcceptedIff(s, TreeOf(d'));
      SolidIffFirm(d');
    }
    if Solid(e) {
      forall input ensures Examine(e, input) == Holds(Meaning(e, input)) {
        SolidNeverPanics(e, input);
        ExamineIsMeaning(e, input);
      }
    }
  }

  // ---- texts that hang the parser -----------------------------------------------------------------

  /** A layout broken off behind a comma: lists still open, the innermost with nothing but spaces
      behind its last comma. */
  datatype OpenDoc = OpenDoc(pre: nat, word: string, gap: nat, args: OpenArgs)
  datatype OpenArgs =
    | Spaced(tail: nat)
    | Nested(open: OpenDoc)
    | Then(doc: Doc, post: nat, rest: OpenArgs)

  ghost function RenderOpen(o: OpenDoc): string {
    Spaces(o.pre) + (o.word + (Spaces(o.gap) + ("(" + RenderOpenArgs(o.args))))
  }

  ghost function RenderOpenArgs(a: OpenArgs): string {
    match a
    case Spaced(tail) => Spaces(tail)
    case Nested(open) => RenderOpen(open)
    case Then(d, post, rest) => Render(d) + (Spaces(post) + ("," + RenderOpenArgs(rest)))
  }

  ghost predicate OpenWellFormed(o: OpenDoc) {
    IsWord(o.word) && !o.args.Spaced? && OpenArgsWellFormed(o.args)
  }

  ghost predicate OpenArgsWellFormed(a: OpenArgs) {
    match a
    case Spaced(_) => true
    case Nested(open) => OpenWellFormed(open)
    case Then(d, _, rest) => WellFormed(d) && OpenArgsWellFormed(rest)
  }

  /** `text` stands in `s` at `from` and is the rest of it. */
  ghost predicate Rest(s: string, from: nat, text: string) {
    Here(s, from, text) && from + |text| == |s|
  }

  lemma SplitRest(s: string, from: nat, a: string, b: string)
    requires Rest(s, from, a + b)
    ensures Here(s, from, a) && Rest(s, from + |a|, b)
  {
    SplitHere(s, from, a, b);
  }

  lemma {:induction false} OpenHangs(s: string, from: nat, o: OpenDoc)
    requires OpenWellFormed(o) && Rest(s, from, RenderOpen(o))
    ensures GetOne(from, s) == Hang
    decreases o
  {
    hide GetOne, GetArgs, RenderOpen, RenderOpenArgs, Here, Forward, WordEnd, Lookup;
    var end := from + o.pre + |o.word|;
    var open := end + o.gap;
    SplitOpen(s, from, o);
    ReadBracket(s, from, o.pre, o.word, o.gap);
    OpenArgsNotEmpty(o.args);
    OneNode(from, s, from + o.pre, end, open);
    OpenArgsHang(s, open, Lookup(o.word), o.args, []);
  }

  /** The pieces of a broken-off layout, one after the other. */
  lemma SplitOpen(s: string, from: nat, o: OpenDoc)
    requires Rest(s, from, RenderOpen(o))
    ensures Here(s, from, Spaces(o.pre)) && Here(s, from + o.pre, o.word)
    ensures var end := from + o.pre + |o.word|;
      && Here(s, end, Spaces(o.gap)) && end + o.gap < |s| && s[end + o.gap] == '('
      && Rest(s, end + o.gap + 1, RenderOpenArgs(o.args))
  {
    var inner := RenderOpenArgs(o.args);
    var end := from + o.pre + |o.word|;
    SplitRest(s, from, Spaces(o.pre), o.word + (Spaces(o.gap) + ("(" + inner)));
    SplitRest(s, from + o.pre, o.word, Spaces(o.gap) + ("(" + inner));
    SplitRest(s, end, Spaces(o.gap), "(" + inner);
    SplitRest(s, end + o.gap, "(", inner);
    assert s[end + o.gap + 0] == "("[0];
  }

  lemma OpenArgsNotEmpty(a: OpenArgs)
    requires !a.Spaced?
    ensures RenderOpenArgs(a) != ""
  {
  }

  lemma {:induction false} OpenArgsHang(s: string, next: nat, head: Head, a: OpenArgs, acc: seq<Expr>)
    requires next < |s| && OpenArgsWellFormed(a) && Rest(s, next + 1, RenderOpenArgs(a))
    requires a.Spaced? ==> s[next] == ','
    ensures GetArgs(head, next, s, acc) == Hang
    decreases a
  {
    hide GetOne, GetArgs;
    ArgTurn(head, next, s, acc);
    match a {
      case Spaced(tail) =>
        SpacesHere(s, next + 1, tail);
        NonSpaceAfter(next + 1, s, tail);
        OneTurn(next + 1, s);
      case Nested(open) => OpenHangs(s, next + 1, open);
      case Then(d, post, rest) =>
        var m := ReadClosedArg(s, next, a);
        OpenArgsHang(s, m, head, rest, acc + [TreeOf(d)]);
    }
  }

  /** A finished argument in front of a comma. */
  lemma ReadClosedArg(s: string, next: nat, a: OpenArgs) returns (m: nat)
    requires a.Then? && next < |s| && OpenArgsWellFormed(a) && Rest(s, next + 1, RenderOpenArgs(a))
    ensures next < m < |s| && s[m] == ',' && Rest(s, m + 1, RenderOpenArgs(a.rest))
    ensures var r := GetOne(next + 1, s); r.Got? && r.exp == TreeOf(a.doc) && !r.eol && NonSpace(r.next, s) == At(m)
  {
    hide GetOne, GetArgs;
    var tail := "," + RenderOpenArgs(a.rest);
    var end := next + 1 + |Render(a.doc)|;
    SplitRest(s, next + 1, Render(a.doc), Spaces(a.post) + tail);
    SplitRest(s, end, Spaces(a.post), tail);
    m := end + a.post;
    SplitRest(s, m, ",", RenderOpenArgs(a.rest));
    assert s[m + 0] == ","[0];
    SpacesHere(s, end, a.post);
    ParseDoc(s, next + 1, a.doc, a.post);
    var n := GetOne(next + 1, s).next;
    NonSpaceAfter(n, s, m - n);
  }

  lemma JoinRest(s: string, from: nat, a: string, b: string)
    requires Here(s, from, a) && Rest(s, from + |a|, b)
    ensures Rest(s, from, a + b)
  {
    JoinHere(s, from, a, b);
  }

  /** What hangs the parser is a broken-off layout. */
  lemma {:induction false} HangIsOpen(from: nat, s: string) returns (o: OpenDoc)
    requires from <= |s| && GetOne(from, s).Hang?
    ensures OpenWellFormed(o) && Rest(s, from, RenderOpen(o))
    decreases |s| - from, 0
  {
    hide GetOne, GetArgs, RenderOpen, RenderOpenArgs, OpenWellFormed, OpenArgsWellFormed, Lookup;
    OneTurn(from, s);
    var at := Forward(from, s);
    var end := WordEnd(at, s);
    var open := Forward(end, s);
    var a := ArgsHangIsOpen(Lookup(s[at..end]), open, s, []);
    o := OpenDoc(at - from, s[at..end], open - end, a);
    OpenIsLayout(s, from, at, end, open, a);
  }

  lemma OpenIsLayout(s: string, from: nat, at: nat, end: nat, open: nat, a: OpenArgs)
    requires from <= at < end <= open < |s| && Blank(s, from, at) && forall i :: at <= i < end ==> IsWordChar(s[i])
    requires Blank(s, end, open) && s[open] == '(' && OpenArgsWellFormed(a) && Rest(s, open + 1, RenderOpenArgs(a))
    requires !a.Spaced?
    ensures var o := OpenDoc(at - from, s[at..end], open - end, a);
      OpenWellFormed(o) && Rest(s, from, RenderOpen(o))
  {
    hide Here, RenderOpenArgs, OpenArgsWellFormed;
    var inner := RenderOpenArgs(a);
    HereText(s, open, open + 1);
    assert s[open..open + 1] == "(";
    JoinRest(s, open, "(", inner);
    HereSpaces(s, end, open);
    JoinRest(s, end, Spaces(open - end), "(" + inner);
    HereText(s, at, end);
    JoinRest(s, at, s[at..end], Spaces(open - end) + ("(" + inner));
    HereSpaces(s, from, at);
    JoinRest(s, from, Spaces(at - from), s[at..end] + (Spaces(open - end) + ("(" + inner)));
  }

  lemma {:induction false} ArgsHangIsOpen(head: Head, next: nat, s: string, args: seq<Expr>) returns (a: OpenArgs)
    requires next < |s| && (s[next] == '(' || s[next] == ',') && GetArgs(head, next, s, args).Hang?
    ensures OpenArgsWellFormed(a) && Rest(s, next + 1, RenderOpenArgs(a)) && (a.Spaced? ==> s[next] == ',')
    decreases |s| - next, 1
  {
    hide GetOne, GetArgs, Render, WellFormed;
    ArgTurn(head, next, s, args);
    var sub := GetOne(next + 1, s);
    if sub.Hang? {
      var o := HangIsOpen(next + 1, s);
      a := Nested(o);
    } else if NonSpace(sub.next, s).At? {
      var d, m := ArgIsLayout(next, s);
      var rest := ArgsHangIsOpen(head, m, s, args + [sub.exp]);
      ThenIsLayout(s, next, d, m, rest);
      a := Then(d, m - next - 1 - |Render(d)|, rest);
    } else {
      OneEnds(next + 1, s);
      HereSpaces(s, next + 1, |s|);
      a := Spaced(|s| - next - 1);
    }
  }

  lemma ThenIsLayout(s: string, next: nat, d: Doc, m: nat, rest: OpenArgs)
    requires next < m < |s| && WellFormed(d) && Here(s, next + 1, Render(d)) && s[m] == ','
    requires next + 1 + |Render(d)| <= m && Blank(s, next + 1 + |Render(d)|, m)
    requires OpenArgsWellFormed(rest) && Rest(s, m + 1, RenderOpenArgs(rest))
    ensures var a := Then(d, m - next - 1 - |Render(d)|, rest);
      OpenArgsWellFormed(a) && Rest(s, next + 1, RenderOpenArgs(a))
  {
    var end := next + 1 + |Render(d)|;
    HereText(s, m, m + 1);
    assert s[m..m + 1] == ",";
    JoinRest(s, m, ",", RenderOpenArgs(rest));
    HereSpaces(s, end, m);
    JoinRest(s, end, Spaces(m - end), "," + RenderOpenArgs(rest));
    JoinRest(s, next + 1, Render(d), Spaces(m - end) + ("," + RenderOpenArgs(rest)));
  }

  ghost predicate IsOpenLayout(o: OpenDoc, s: string) {
    OpenWellFormed(o) && RenderOpen(o) == s
  }

  /** The parser hangs exactly on the broken-off layouts. */
  lemma HangsIff(s: string)
    ensures GetExpression(s).Hangs? <==> exists o :: IsOpenLayout(o, s)
  {
    hide GetOne, GetArgs, RenderOpen, OpenWellFormed;
    if GetExpression(s).Hangs? {
      var o := HangIsOpen(0, s);
      HereAll(s, RenderOpen(o));
      assert IsOpenLayout(o, s);
    }
    if o :| IsOpenLayout(o, s) {
      OpenHangs(s, 0, o);
      OpenNotEmpty(o);
    }
  }

  lemma OpenNotEmpty(o: OpenDoc)
    ensures RenderOpen(o) != ""
  {
  }

  // ---- what would close them -----------------------------------------------------------------------

  ghost function Parens(n: nat): string {
    seq(n, _ => ')')
  }

  lemma ParensStep(n: nat)
    ensures Parens(n + 1) == Parens(n) + ")" && Parens(0) == ""
  {
  }

  ghost function Close(o: OpenDoc): Doc {
    Node(o.pre, o.word, o.gap, CloseArgs(o.args))
  }

  ghost function CloseArgs(a: OpenArgs): Docs {
    match a
    case Spaced(tail) => One(Hole(tail), 0)
    case Nested(open) => One(Close(open), 0)
    case Then(d, post, rest) => More(d, post, CloseArgs(rest))
  }

  /** The lists still open. */
  ghost function Depth(o: OpenDoc): nat {
    1 + DepthArgs(o.args)
  }

  ghost function DepthArgs(a: OpenArgs): nat {
    match a
    case Spaced(_) => 0
    case Nested(open) => Depth(open)
    case Then(_, _, rest) => DepthArgs(rest)
  }

  lemma {:induction false} CloseRenders(o: OpenDoc)
    requires OpenWellFormed(o)
    ensures WellFormed(Close(o)) && Render(Close(o)) == RenderOpen(o) + Parens(Depth(o))
    decreases o
  {
    CloseArgsRender(o.args);
    var x, y := RenderOpenArgs(o.args), Parens(Depth(o));
    assert "(" + (x + y) == ("(" + x) + y;
    assert Spaces(o.gap) + (("(" + x) + y) == Spaces(o.gap) + ("(" + x) + y;
    assert o.word + (Spaces(o.gap) + ("(" + x) + y) == o.word + (Spaces(o.gap) + ("(" + x)) + y;
  }

  lemma {:induction false} CloseArgsRender(a: OpenArgs)
    requires OpenArgsWellFormed(a)
    ensures AllWellFormed(CloseArgs(a)) && RenderAll(CloseArgs(a)) == RenderOpenArgs(a) + Parens(DepthArgs(a) + 1)
    decreases a
  {
    ParensStep(DepthArgs(a));
    var x, y := RenderOpenArgs(a), Parens(DepthArgs(a));
    match a {
      case Spaced(tail) =>
        assert Spaces(0) + ")" == ")" && y == "";
      case Nested(open) =>
        CloseRenders(open);
        assert Spaces(0) + ")" == ")" && x + y + ")" == x + (y + ")");
      case Then(d, post, rest) =>
        CloseArgsRender(rest);
        var z, w := RenderOpenArgs(rest), Parens(DepthArgs(rest) + 1);
        assert "," + (z + w) == ("," + z) + w;
        assert Spaces(post) + (("," + z) + w) == Spaces(post) + ("," + z) + w;
    }
  }

  /** The last character that is not a space is a comma. */
  ghost predicate EndsInComma(s: string) {
    exists m :: 0 <= m < |s| && s[m] == ',' && Blank(s, m + 1, |s|)
  }

  lemma {:induction false} OpenEndsInComma(o: OpenDoc)
    requires OpenWellFormed(o)
    ensures EndsInComma(RenderOpen(o))
    decreases o
  {
    hide EndsInComma, RenderOpenArgs, OpenArgsWellFormed;
    OpenArgsEndInComma(o.args);
    var x, inner := Spaces(o.pre) + o.word + Spaces(o.gap) + "(", RenderOpenArgs(o.args);
    CommaBehind(x, inner);
    assert RenderOpen(o) == x + inner;
  }

  lemma {:induction false} OpenArgsEndInComma(a: OpenArgs)
    requires OpenArgsWellFormed(a) && !a.Spaced?
    ensures EndsInComma(RenderOpenArgs(a))
    decreases a
  {
    match a {
      case Nested(open) => OpenEndsInComma(open);
      case Then(d, post, rest) =>
        var x := Render(d) + Spaces(post) + ",";
        assert RenderOpenArgs(a) == x + RenderOpenArgs(rest);
        if rest.Spaced? {
          assert RenderOpenArgs(a)[|x| - 1] == ',';
        } else {
          OpenArgsEndInComma(rest);
          CommaBehind(x, RenderOpenArgs(rest));
        }
    }
  }

  lemma CommaBehind(x: string, y: string)
    requires EndsInComma(y)
    ensures EndsInComma(x + y)
  {
    var m :| 0 <= m < |y| && y[m] == ',' && Blank(y, m + 1, |y|);
    assert (x + y)[|x| + m] == ',';
  }

  /** Behind a character that is neither a space nor a comma the comma comes later. */
  lemma CommaLater(x: string, y: string, p: nat)
    requires EndsInComma(x + y) && p < |y| && y[p] != ' ' && y[p] != ','
    ensures EndsInComma(y)
  {
    var s := x + y;
    var m :| 0 <= m < |s| && s[m] == ',' && Blank(s, m + 1, |s|);
    assert s[|x| + p] == y[p];
    assert y[m - |x|] == ',' && Blank(y, m - |x| + 1, |y|) by {
      assert forall i :: 0 <= i < |y| ==> y[i] == s[|x| + i];
    }
  }

  /** An expression begins with a word and ends with a word or a bracket. */
  lemma RenderEdges(d: Doc)
    requires WellFormed(d) && !d.Hole?
    ensures d.pre < |Render(d)| && IsWordChar(Render(d)[d.pre])
    ensures var last := Render(d)[|Render(d)| - 1]; if d.Bare? then IsWordChar(last) else last == ')'
  {
    if d.Bare? {
      assert Render(d)[d.pre] == d.word[0];
    } else {
      assert Render(d)[d.pre] == d.word[0];
      ListEdge(d.args);
      var list := RenderAll(d.args);
      assert Render(d) == Spaces(d.pre) + d.word + Spaces(d.gap) + "(" + list;
    }
  }

  lemma {:induction false} ListEdge(ds: Docs)
    ensures RenderAll(ds) != "" && RenderAll(ds)[|RenderAll(ds)| - 1] == ')'
    decreases ds
  {
    if ds.More? {
      ListEdge(ds.rest);
    }
  }

  /** `x + y` is `s` with closing brackets behind it, and `x` ends with none: then `s` runs past `x`. */
  lemma BehindParens(x: string, y: string, s: string, k: nat)
    requires x != "" && x[|x| - 1] != ')' && x + y == s + Parens(k)
    ensures |x| <= |s| && s == x + s[|x|..] && y == s[|x|..] + Parens(k)
  {
    var t := x + y;
    assert t[|x| - 1] == x[|x| - 1];
    assert forall i :: |s| <= i < |t| ==> t[i] == ')';
    assert t[..|x|] == x && s[..|x|] == t[..|x|];
    assert y == t[|x|..];
  }

  /** Taking brackets off a layout, down to a comma, leaves a broken-off layout. */
  lemma {:induction false} Strip(d: Doc, s: string, k: nat) returns (o: OpenDoc)
    requires WellFormed(d) && !d.Hole? && k > 0 && Render(d) == s + Parens(k) && EndsInComma(s)
    ensures OpenWellFormed(o) && RenderOpen(o) == s
    decreases d
  {
    hide EndsInComma;
    RenderEdges(d);
    assert Render(d)[|Render(d)| - 1] == Parens(k)[k - 1];
    assert d.Node?;
    var x := Spaces(d.pre) + d.word + Spaces(d.gap) + "(";
    assert Render(d) == x + RenderAll(d.args);
    var a := StripArgs(d.args, x, s, k);
    o := OpenDoc(d.pre, d.word, d.gap, a);
    assert RenderOpen(o) == x + RenderOpenArgs(a);
  }

  lemma {:induction false} StripArgs(ds: Docs, x: string, s: string, k: nat) returns (a: OpenArgs)
    requires AllWellFormed(ds) && k > 0 && x + RenderAll(ds) == s + Parens(k) && EndsInComma(s)
    requires x != "" && (x[|x| - 1] == '(' || x[|x| - 1] == ',')
    ensures OpenArgsWellFormed(a) && s == x + RenderOpenArgs(a) && (a.Spaced? ==> x[|x| - 1] == ',')
    decreases ds
  {
    hide EndsInComma;
    match ds {
      case One(d, post) =>
        ParensStep(k - 1);
        assert x + RenderAll(ds) == x + (Render(d) + Spaces(post)) + ")";
        assert s + Parens(k) == s + Parens(k - 1) + ")";
        CutLast(x + (Render(d) + Spaces(post)), s + Parens(k - 1));
        if k == 1 {
          assert s + Parens(0) == s;
          LastIsHole(d, post, x, s);
          a := Spaced(d.pre + post);
        } else {
          assert x + (Render(d) + Spaces(post)) == x + Render(d) + Spaces(post);
          NoSpaceLast(x + Render(d), post, s, k - 1);
          BehindParens(x, Render(d), s, k - 1);
          var inner := s[|x|..];
          WordInFront(d, inner, k - 1);
          CommaLater(x, inner, d.pre);
          var o := Strip(d, inner, k - 1);
          a := Nested(o);
        }
      case More(d, post, rest) =>
        var x' := x + (Render(d) + Spaces(post) + ",");
        assert x + RenderAll(ds) == x' + RenderAll(rest);
        var a' := StripArgs(rest, x', s, k);
        a := Then(d, post, a');
        assert x' + RenderOpenArgs(a') == x + RenderOpenArgs(a);
    }
  }

  lemma CutLast(u: string, v: string)
    requires u + ")" == v + ")"
    ensures u == v
  {
    assert u == (u + ")")[..|u|];
    assert v == (v + ")")[..|v|];
  }

  lemma LastSpace(y: string, post: nat)
    requires post > 0
    ensures var t := y + Spaces(post); t[|t| - 1] == ' '
  {
  }

  lemma LastParen(s: string, j: nat)
    requires j > 0
    ensures var t := s + Parens(j); t[|t| - 1] == ')'
  {
  }

  lemma NoSpaceLast(y: string, post: nat, s: string, j: nat)
    requires j > 0 && y + Spaces(post) == s + Parens(j)
    ensures y == s + Parens(j) && post == 0
  {
    if post > 0 {
      LastSpace(y, post);
    }
    LastParen(s, j);
  }

  lemma WordInFront(d: Doc, inner: string, j: nat)
    requires WellFormed(d) && j > 0 && Render(d) == inner + Parens(j)
    ensures !d.Hole? && d.pre < |inner| && IsWordChar(inner[d.pre])
  {
    var t := inner + Parens(j);
    assert forall i :: |inner| <= i < |t| ==> t[i] == ')';
    assert t[|t| - 1] == ')';
    if !d.Hole? {
      RenderEdges(d);
    }
  }

  lemma NoCommaLast(d: Doc, post: nat, x: string)
    requires WellFormed(d) && !d.Hole?
    ensures !EndsInComma(x + (Render(d) + Spaces(post)))
  {
    RenderEdges(d);
    hide Render;
    var s, p := x + (Render(d) + Spaces(post)), |x| + |Render(d)| - 1;
    assert s[p] == Render(d)[|Render(d)| - 1] && forall i :: p < i < |s| ==> s[i] == ' ';
  }

  lemma CommaLast(x: string, n: nat)
    requires x != "" && x[|x| - 1] != ' ' && EndsInComma(x + Spaces(n))
    ensures x[|x| - 1] == ','
  {
    var s := x + Spaces(n);
    assert s[|x| - 1] == x[|x| - 1] && forall i :: |x| <= i < |s| ==> s[i] == ' ';
  }

  /** In front of the first bracket taken off stands the comma, with nothing but spaces behind it. */
  lemma LastIsHole(d: Doc, post: nat, x: string, s: string)
    requires WellFormed(d) && x != "" && x[|x| - 1] != ' ' && s == x + (Render(d) + Spaces(post)) && EndsInComma(s)
    ensures d.Hole? && x[|x| - 1] == ',' && s == x + Spaces(d.pre + post)
  {
    hide EndsInComma, WellFormed;
    if d.Hole? {
      assert Spaces(d.pre) + Spaces(post) == Spaces(d.pre + post);
      CommaLast(x, d.pre + post);
    } else {
      NoCommaLast(d, post, x);
    }
  }

  /** The parser hangs exactly on a text that ends in a comma and that some closing brackets would make
      acceptable. The test on the right always ends. */
  lemma HangsIffClosable(s: string)
    ensures GetExpression(s).Hangs? <==>
      EndsInComma(s) && exists k :: k > 0 && GetExpression(s + Parens(k)).Ok?
  {
    hide GetExpression, Render, WellFormed, RenderOpen, OpenWellFormed, EndsInComma, TreeOf;
    HangsIff(s);
    if o :| IsOpenLayout(o, s) {
      OpenEndsInComma(o);
      CloseRenders(o);
      var closed := s + Parens(Depth(o));
      assert IsLayout(Close(o), closed);
      AcceptedIff(closed, TreeOf(Close(o)));
      OpenNotEmpty(o);
    }
    if k :| k > 0 && EndsInComma(s) && GetExpression(s + Parens(k)).Ok? {
      var t := s + Parens(k);
      assert t != "";
      AcceptedIff(t, GetExpression(t).exp);
      var d :| IsLayout(d, t) && TreeOf(d) == GetExpression(t).exp;
      var o := Strip(d, s, k);
      assert IsOpenLayout(o, s);
    }
  }

  /** Text that does not end in a comma is decided; so are the texts tried above, which end in a bracket. */
  lemma ParserDecides(s: string)
    requires !EndsInComma(s)
    ensures GetExpression(s).Ok? || GetExpression(s).SyntaxError?
  {
    hide GetExpression, EndsInComma;
    HangsIffClosable(s);
  }

  lemma ClosedIsDecided(s: string, k: nat)
    requires k > 0
    ensures GetExpression(s + Parens(k)).Ok? || GetExpression(s + Parens(k)).SyntaxError?
  {
    hide GetExpression;
    var t := s + Parens(k);
    assert t[|t| - 1] == Parens(k)[k - 1];
    ParserDecides(t);
  }

  // ---- two small texts -------------------------------------------------------------------------------

  /** An unterminated list hangs the parser. */
  lemma UnterminatedListHangs()
    ensures GetExpression("a(b,") == Hangs
  {
    var s := "a(b,";
    assert GetOne(4, s) == Got(Nil, 4, false);
    assert WordEnd(3, s) == 3 && WordEnd(2, s) == 3 && s[2..3] == "b";
    assert GetOne(2, s) == Got(User("b"), 3, false);
    assert GetArgs(Name("a"), 3, s, [] + [User("b")]) == Hang;
    assert GetArgs(Name("a"), 1, s, []) == Hang;
    assert WordEnd(1, s) == 1 && WordEnd(0, s) == 1 && s[0..1] == "a";
  }

  /** An empty list parses, and panics when examined. */
  lemma EmptyListPanics(input: set<string>)
    ensures GetExpression("or()") == Ok(Or([Nil])) && Examine(Or([Nil]), input) == Panic
  {
    var t := "or()";
    assert GetOne(3, t) == Got(Nil, 3, false);
    assert [] + [Nil] == [Nil];
    assert GetArgs(OrHead, 2, t, []) == Got(Or([Nil]), 4, true);
    assert WordEnd(2, t) == 2 && WordEnd(1, t) == 2 && WordEnd(0, t) == 2 && t[0..2] == "or";
  }
}

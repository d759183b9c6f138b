/** What a condition says, read off its text: the words and brackets alone, without the parser's trees.
    About the keyword table and `getOne` of base/settings/condition.go. */
module ConditionMeaning {
  import opened Condition
  import opened ConditionTexts

  /** What a layout says on an input. Arguments of a constant or of a name are passed over, `not` says
      something of a single argument alone, and an argument left out says nothing. */
  ghost predicate Says(d: Doc, input: set<string>) {
    match d
    case Hole(_) => false
    case Bare(_, word) =>
      if word in {"false", "or", "not"} then false else word in {"true", "and"} || word in input
    case Node(_, word, _, args) =>
      if word == "and" then AllSay(args, input)
      else if word == "or" then SomeSays(args, input)
      else if word == "not" then args.One? && !Says(args.doc, input)
      else if word == "true" then true
      else if word == "false" then false
      else word in input
  }

  ghost predicate AllSay(ds: Docs, input: set<string>) {
    Says(ds.doc, input) && (ds.More? ==> AllSay(ds.rest, input))
  }

  ghost predicate SomeSays(ds: Docs, input: set<string>) {
    Says(ds.doc, input) || (ds.More? && SomeSays(ds.rest, input))
  }

  /** The tree of a layout means what the layout says. */
  lemma {:induction false} SaysIsMeaning(d: Doc, input: set<string>)
    ensures Meaning(TreeOf(d), input) <==> Says(d, input)
    decreases d
  {
    match d {
      case Node(_, word, _, args) =>
        ListSays(args, input);
        TreesCount(args);
        if args.One? {
          SaysIsMeaning(args.doc, input);
        }
      case _ =>
    }
  }

  lemma {:induction false} ListSays(ds: Docs, input: set<string>)
    ensures (forall e :: e in TreesOf(ds) ==> Meaning(e, input)) <==> AllSay(ds, input)
    ensures (exists e :: e in TreesOf(ds) && Meaning(e, input)) <==> SomeSays(ds, input)
    decreases ds
  {
    hide Meaning, Says;
    SaysIsMeaning(ds.doc, input);
    if ds.More? {
      ListSays(ds.rest, input);
      assert forall e :: e in TreesOf(ds) <==> e == TreeOf(ds.doc) || e in TreesOf(ds.rest);
    } else {
      assert TreesOf(ds) == [TreeOf(ds.doc)];
    }
  }

  lemma TreesCount(ds: Docs)
    ensures (|TreesOf(ds)| == 1 <==> ds.One?) && TreesOf(ds)[0] == TreeOf(ds.doc)
  {
    if ds.More? {
      TreesCount(ds.rest);
    }
  }

  /** Parsing and examining: a layout with no argument left out is accepted, and holds on an input exactly
      when it says so. */
  lemma TextSays(d: Doc, input: set<string>)
    requires WellFormed(d) && Firm(d)
    ensures var parsed := GetExpression(Render(d));
      parsed.Ok? && Examine(parsed.exp, input) == Holds(Says(d, input))
  {
    hide GetExpression, Examine, Meaning, Says, ReachesNil;
    assert !d.Hole?;
    RoundTrip(d, 0);
    assert Render(d) + Spaces(0) == Render(d);
    SolidIffFirm(d);
    SolidNeverPanics(TreeOf(d), input);
    SaysIsMeaning(d, input);
  }

  /** Every text that is accepted with a tree free of nil children holds exactly when its layout says so. */
  lemma AcceptedTextSays(s: string, e: Expr, input: set<string>)
    requires s != "" && GetExpression(s) == Ok(e) && Solid(e)
    ensures exists d :: IsLayout(d, s) && Examine(e, input) == Holds(Says(d, input))
  {
    hide GetExpression, Examine, Meaning, Says, IsLayout, Solid;
    AcceptedIff(s, e);
    var d :| IsLayout(d, s) && TreeOf(d) == e;
    SolidTextIff(s, e);
    SaysIsMeaning(d, input);
  }

  ghost predicate IsName(w: string) {
    IsWord(w) && w !in {"true", "false", "and", "or", "not"}
  }

  /** The tree of a text and its value on an input. */
  ghost predicate Reads(s: string, e: Expr, input: set<string>, value: bool) {
    GetExpression(s) == Ok(e) && Examine(e, input) == Holds(value)
  }

  lemma BareReads(word: string, input: set<string>)
    requires IsWord(word)
    ensures Reads(word, Build(Lookup(word), []), input, Says(Bare(0, word), input))
  {
    hide GetExpression, Examine, Says;
    var d := Bare(0, word);
    assert Render(d) == word;
    RoundTrip(d, 0);
    assert Render(d) + Spaces(0) == Render(d);
    TextSays(d, input);
  }

  lemma ListReads(word: string, args: Docs, input: set<string>)
    requires IsWord(word) && AllWellFormed(args) && AllFirm(args)
    ensures var d := Node(0, word, 0, args);
      Reads(word + "(" + RenderAll(args), Build(Lookup(word), TreesOf(args)), input, Says(d, input))
  {
    hide GetExpression, Examine, Says, RenderAll;
    var d := Node(0, word, 0, args);
    assert Render(d) == word + "(" + RenderAll(args);
    RoundTrip(d, 0);
    assert Render(d) + Spaces(0) == Render(d);
    TextSays(d, input);
  }

  /** The keywords by their texts, for all names: constants, a name, its negation, the conjunction and the
      disjunction of two. */
  lemma KeywordTexts(a: string, b: string, input: set<string>)
    requires IsName(a) && IsName(b)
    ensures Reads("true", Bool(true), input, true) && Reads("false", Bool(false), input, false)
    ensures Reads(a, User(a), input, a in input)
    ensures Reads("not(" + a + ")", Not([User(a)]), input, a !in input)
    ensures Reads("and(" + a + "," + b + ")", And([User(a), User(b)]), input, a in input && b in input)
    ensures Reads("or(" + a + "," + b + ")", Or([User(a), User(b)]), input, a in input || b in input)
  {
    hide Reads;
    BareReads("true", input);
    BareReads("false", input);
    BareReads(a, input);
    var one, two := One(Bare(0, a), 0), More(Bare(0, a), 0, One(Bare(0, b), 0));
    PairIs(a, b, input);
    ListReads("not", one, input);
    ListReads("and", two, input);
    ListReads("or", two, input);
    assert "not(" + a + ")" == "not" + "(" + RenderAll(one);
    assert "and(" + a + "," + b + ")" == "and" + "(" + RenderAll(two);
    assert "or(" + a + "," + b + ")" == "or" + "(" + RenderAll(two);
  }

  /** The argument lists of one and of two names. */
  lemma PairIs(a: string, b: string, input: set<string>)
    requires IsName(a) && IsName(b)
    ensures var one, two := One(Bare(0, a), 0), More(Bare(0, a), 0, One(Bare(0, b), 0));
      && RenderAll(one) == a + ")" && RenderAll(two) == a + "," + b + ")"
      && TreesOf(one) == [User(a)] && TreesOf(two) == [User(a), User(b)]
      && AllWellFormed(one) && AllWellFormed(two) && AllFirm(one) && AllFirm(two)
      && (AllSay(two, input) <==> a in input && b in input)
      && (SomeSays(two, input) <==> a in input || b in input)
  {
    var last := One(Bare(0, b), 0);
    assert Render(Bare(0, a)) == a && Render(Bare(0, b)) == b;
    assert RenderAll(last) == b + ")";
    assert TreesOf(last) == [User(b)] && AllWellFormed(last) && AllFirm(last);
    assert AllSay(last, input) <==> b in input;
    assert SomeSays(last, input) <==> b in input;
  }
}

/** The startup condition language: `and(..)`, `or(..)`, `not(..)`, `true`, `false` and names that hold
    when the kernel command line carries them. Models base/settings/condition.go. */
module Condition {

  /** `Nil` is the nil child the parser stores for a missing argument. */
  datatype Expr =
    | Bool(value: bool)
    | And(args: seq<Expr>)
    | Or(args: seq<Expr>)
    | Not(args: seq<Expr>)
    | User(name: string)
    | Nil

  datatype Verdict = Holds(value: bool) | Panic

  // ---- evaluation ------------------------------------------------------------------------

  /** `Examine`, left to right and short-circuiting; a nil child panics when it is reached. */
  function Examine(e: Expr, input: set<string>): Verdict
    decreases e, 1
  {
    match e
    case Bool(b) => Holds(b)
    case And(args) => ExamineUntil(args, false, input)
    case Or(args) => ExamineUntil(args, true, input)
    case Not(args) =>
      if |args| != 1 then Holds(false)
      else
        var v := Examine(args[0], input);
        if v.Panic? then Panic else Holds(!v.value)
    case User(name) => Holds(name in input)
    case Nil => Panic
  }

  /** The loops of `and` and `or`: the first child with value `stop` decides. */
  function ExamineUntil(args: seq<Expr>, stop: bool, input: set<string>): Verdict
    decreases args, 0
  {
    if args == [] then Holds(!stop)
    else
      var v := Examine(args[0], input);
      if v.Panic? || v.value == stop then v else ExamineUntil(args[1..], stop, input)
  }

  /** The boolean meaning of a tree; a nil child counts as false. */
  ghost predicate Meaning(e: Expr, input: set<string>) {
    match e
    case Bool(b) => b
    case And(args) => forall a :: a in args ==> Meaning(a, input)
    case Or(args) => exists a :: a in args && Meaning(a, input)
    case Not(args) => |args| == 1 && !Meaning(args[0], input)
    case User(name) => name in input
    case Nil => false
  }

  /** A nil child is reached: at each level every earlier sibling comes out without deciding. */
  ghost predicate ReachesNil(e: Expr, input: set<string>)
    decreases e, 1
  {
    match e
    case Nil => true
    case And(args) => ReachesNilIn(args, false, input)
    case Or(args) => ReachesNilIn(args, true, input)
    case Not(args) => |args| == 1 && ReachesNil(args[0], input)
    case _ => false
  }

  ghost predicate ReachesNilIn(args: seq<Expr>, stop: bool, input: set<string>)
    decreases args, 0
  {
    exists i :: 0 <= i < |args| && ReachesNil(args[i], input) &&
      forall j :: 0 <= j < i ==> !ReachesNil(args[j], input) && Meaning(args[j], input) != stop
  }

  /** What a tree stands for on an input, short circuits and nil children included. */
  ghost function Judgement(e: Expr, input: set<string>): Verdict {
    if ReachesNil(e, input) then Panic else Holds(Meaning(e, input))
  }

  /** On every tree and input `Examine` panics exactly when a nil child is reached, and computes the
      meaning otherwise. */
  lemma {:induction false} ExamineIsMeaning(e: Expr, input: set<string>)
    ensures Examine(e, input) == Judgement(e, input)
    decreases e, 1
  {
    match e {
      case And(args) => UntilIsMeaning(args, false, input);
      case Or(args) => UntilIsMeaning(args, true, input);
      case Not(args) =>
        if |args| == 1 {
          ExamineIsMeaning(args[0], input);
        }
      case _ =>
    }
  }

  lemma {:induction false} UntilIsMeaning(args: seq<Expr>, stop: bool, input: set<string>)
    ensures ExamineUntil(args, stop, input) ==
      if ReachesNilIn(args, stop, input) then Panic
      else Holds(if exists a :: a in args && Meaning(a, input) == stop then stop else !stop)
    decreases args, 0
  {
    hide ReachesNil, Meaning;
    if args != [] {
      var first, rest := args[0], args[1..];
      ExamineIsMeaning(first, input);
      if !ReachesNil(first, input) && Meaning(first, input) != stop {
        UntilIsMeaning(rest, stop, input);
        NilFurther(args, stop, input);
        assert forall a :: a in args <==> a == first || a in rest;
      } else {
        NilHere(args, stop, input);
      }
    }
  }

  lemma NilHere(args: seq<Expr>, stop: bool, input: set<string>)
    requires args != [] && (ReachesNil(args[0], input) || Meaning(args[0], input) == stop)
    ensures ReachesNilIn(args, stop, input) <==> ReachesNil(args[0], input)
  {
    hide ReachesNil, Meaning;
  }

  lemma NilFurther(args: seq<Expr>, stop: bool, input: set<string>)
    requires args != [] && !ReachesNil(args[0], input) && Meaning(args[0], input) != stop
    ensures ReachesNilIn(args, stop, input) <==> ReachesNilIn(args[1..], stop, input)
  {
    hide ReachesNil, Meaning;
    var rest := args[1..];
    if ReachesNilIn(args, stop, input) {
      var i :| 0 <= i < |args| && ReachesNil(args[i], input) &&
        forall j :: 0 <= j < i ==> !ReachesNil(args[j], input) && Meaning(args[j], input) != stop;
      assert ReachesNil(rest[i - 1], input) && forall j :: 0 <= j < i - 1 ==> rest[j] == args[j + 1];
    }
    if ReachesNilIn(rest, stop, input) {
      var i :| 0 <= i < |rest| && ReachesNil(rest[i], input) &&
        forall j :: 0 <= j < i ==> !ReachesNil(rest[j], input) && Meaning(rest[j], input) != stop;
      assert ReachesNil(args[i + 1], input) && forall j :: 0 < j < i + 1 ==> args[j] == rest[j - 1];
    }
  }

  /** No nil child anywhere. */
  ghost predicate Solid(e: Expr) {
    match e
    case And(args) => forall a :: a in args ==> Solid(a)
    case Or(args) => forall a :: a in args ==> Solid(a)
    case Not(args) => forall a :: a in args ==> Solid(a)
    case Nil => false
    case _ => true
  }

  lemma {:induction false} SolidNeverPanics(e: Expr, input: set<string>)
    requires Solid(e)
    ensures !ReachesNil(e, input)
    decreases e, 1
  {
    match e {
      case And(args) => SolidListNeverPanics(args, false, input);
      case Or(args) => SolidListNeverPanics(args, true, input);
      case Not(args) =>
        if |args| == 1 {
          SolidNeverPanics(args[0], input);
        }
      case _ =>
    }
  }

  lemma {:induction false} SolidListNeverPanics(args: seq<Expr>, stop: bool, input: set<string>)
    requires forall a :: a in args ==> Solid(a)
    ensures !ReachesNilIn(args, stop, input)
    decreases args, 0
  {
    hide ReachesNil, Meaning;
    forall i | 0 <= i < |args| ensures !ReachesNil(args[i], input) {
      SolidNeverPanics(args[i], input);
    }
  }

  // ---- the scanner -----------------------------------------------------------------------

  predicate IsWordChar(c: char) {
    'a' <= c <= 'z' || 'A' <= c <= 'Z' || '0' <= c <= '9' || c == '_' || c == '-'
  }

  datatype Position = At(pos: nat) | Nowhere

  /** First non-space position at or after `from`. */
  function NonSpace(from: nat, s: string): (r: Position)
    requires from <= |s|
    ensures r.At? ==> from <= r.pos < |s| && s[r.pos] != ' ' && forall i :: from <= i < r.pos ==> s[i] == ' '
    ensures r.Nowhere? ==> forall i :: from <= i < |s| ==> s[i] == ' '
    decreases |s| - from
  {
    if from == |s| then Nowhere
    else if s[from] != ' ' then At(from)
    else NonSpace(from + 1, s)
  }

  /** `forward`: like NonSpace, but stays put when only spaces are left. */
  function Forward(from: nat, s: string): (r: nat)
    requires from <= |s|
    ensures from <= r <= |s|
  {
    match NonSpace(from, s)
    case At(pos) => pos
    case Nowhere => from
  }

  /** End of the longest word starting at `from`. */
  function WordEnd(from: nat, s: string): (r: nat)
    requires from <= |s|
    ensures from <= r <= |s| && forall i :: from <= i < r ==> IsWordChar(s[i])
    ensures r < |s| ==> !IsWordChar(s[r])
    decreases |s| - from
  {
    if from < |s| && IsWordChar(s[from]) then WordEnd(from + 1, s) else from
  }

  // ---- the parser ------------------------------------------------------------------------

  /** `Got` carries the end-of-line mark; `Hang` stands for the argument loop that no longer moves. */
  datatype Outcome = Got(exp: Expr, next: nat, eol: bool) | Broken(pos: nat) | Hang

  /** The builder the keyword table holds for a token, or none for a user name. */
  datatype Head = Constant(value: bool) | AndHead | OrHead | NotHead | Name(name: string)

  function Lookup(token: string): Head {
    if token == "true" then Constant(true)
    else if token == "false" then Constant(false)
    else if token == "and" then AndHead
    else if token == "or" then OrHead
    else if token == "not" then NotHead
    else Name(token)
  }

  function Build(head: Head, args: seq<Expr>): Expr {
    match head
    case Constant(b) => Bool(b)
    case AndHead => And(args)
    case OrHead => Or(args)
    case NotHead => Not(args)
    case Name(name) => User(name)
  }

  /** What one `getOne` call returns. */
  function GetOne(from: nat, s: string): (r: Outcome)
    requires from <= |s|
    ensures r.Got? ==> from <= r.next <= |s|
    decreases |s| - from, 0
  {
    var at := Forward(from, s);
    var end := WordEnd(at, s);
    if end == at then Got(Nil, at, false)
    else
      var token := s[at..end];
      var next := Forward(end, s);
      if next < |s| - 1 && s[next] == '(' then GetArgs(Lookup(token), next, s, [])
      else Got(Build(Lookup(token), []), next, next >= |s|)
  }

  /** The argument loop, standing on the `(` or `,` before the next argument. Where only spaces are
      left the index of the next character is one before the end of the argument. */
  function GetArgs(head: Head, next: nat, s: string, args: seq<Expr>): (r: Outcome)
    requires next < |s|
    ensures r.Got? ==> next <= r.next <= |s|
    decreases |s| - next, 1
  {
    match GetOne(next + 1, s)
    case Hang => Hang
    case Broken(pos) => Broken(pos)
    case Got(sub, n, eol) =>
      if eol then Broken(n)
      else
        var m := match NonSpace(n, s) case At(pos) => pos case Nowhere => n - 1;
        if s[m] == ')' then Got(Build(head, args + [sub]), m + 1, m + 1 >= |s|)
        else if s[m] != ',' then Broken(m)
        else if m == next then Hang
        else GetArgs(head, m, s, args + [sub])
  }

  /** `getOne` as written: recursion for an argument, a loop over the list. */
  method ParseOne(from: nat, s: string) returns (r: Outcome)
    requires from <= |s|
    ensures r == GetOne(from, s)
    decreases |s| - from, 0
  {
    var at := Forward(from, s);
    var end := WordEnd(at, s);
    if end == at {
      return Got(Nil, at, false);
    }
    var head := Lookup(s[at..end]);
    var next := Forward(end, s);
    if next < |s| - 1 && s[next] == '(' {
      r := ParseArgs(head, next, s);
    } else {
      r := Got(Build(head, []), next, next >= |s|);
    }
  }

  method ParseArgs(head: Head, open: nat, s: string) returns (r: Outcome)
    requires open < |s|
    ensures r == GetArgs(head, open, s, [])
    decreases |s| - open, 1
  {
    hide GetOne, GetArgs;
    var args := [];
    var next := open;
    while true
      invariant open <= next < |s|
      invariant GetArgs(head, open, s, []) == GetArgs(head, next, s, args)
      decreases |s| - next
    {
      ArgTurn(head, next, s, args);
      var sub := ParseOne(next + 1, s);
      if !sub.Got? {
        return sub;
      }
      if sub.eol {
        return Broken(sub.next);
      }
      args := args + [sub.exp];
      var seen := NonSpace(sub.next, s);
      var m := if seen.At? then seen.pos else sub.next - 1;
      if s[m] == ')' {
        return Got(Build(head, args), m + 1, m + 1 >= |s|);
      } else if s[m] != ',' {
        return Broken(m);
      }
      if m == next {
        return Hang;
      }
      next := m;
    }
  }

  /** One turn of the argument loop. */
  lemma ArgTurn(head: Head, next: nat, s: string, args: seq<Expr>)
    requires next < |s|
    ensures var sub := GetOne(next + 1, s);
      GetArgs(head, next, s, args) ==
        if !sub.Got? then sub
        else if sub.eol then Broken(sub.next)
        else
          var m := if NonSpace(sub.next, s).At? then NonSpace(sub.next, s).pos else sub.next - 1;
          if s[m] == ')' then Got(Build(head, args + [sub.exp]), m + 1, m + 1 >= |s|)
          else if s[m] != ',' then Broken(m)
          else if m == next then Hang
          else GetArgs(head, m, s, args + [sub.exp])
  {
  }

  datatype Parsed = Ok(exp: Expr) | SyntaxError | Hangs

  /** The empty text is `true`; anything left over is an error. */
  function GetExpression(s: string): Parsed {
    if s == "" then Ok(Bool(true))
    else
      match GetOne(0, s)
      case Got(exp, _, eol) => if eol && exp != Nil then Ok(exp) else SyntaxError
      case Broken(_) => SyntaxError
      case Hang => Hangs
  }
}

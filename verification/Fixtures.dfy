/** What the rewriter's first pass comes to on whole families of programs, and on programs it is documented by. */
module Fixtures {
  import opened Options
  import opened Degenerator

  // Calls of members.

  /** The calls that a search which stops at each call it meets finds, in order. */
  function TopCalls(f: Forest): seq<Callee> {
    match f
    case Nil => []
    case Cons(Call(c), _, rest) => [c] + TopCalls(rest)
    case Cons(_, children, rest) => TopCalls(children) + TopCalls(rest)
  }

  /** An identifier is looked up by its name, a member by object and property with a dot between. */
  ghost predicate Named(c: Callee, m: iset<string>) {
    (c.Identifier? && c.name in m) || (c.Member? && c.owner + "." + c.property in m)
  }

  lemma {:induction false} HitsExactly(f: Forest, m: iset<string>)
    ensures Hits(f, m) <==> exists c :: c in TopCalls(f) && Named(c, m)
  {
    match f
    case Nil =>
    case Cons(kind, children, rest) =>
      HitsExactly(rest, m);
      if kind.Call? {
        assert Named(kind.callee, m) <==> NameOf(kind.callee).Some? && NameOf(kind.callee).value in m;
        EitherHas([kind.callee], TopCalls(rest), m);
        assert kind.callee in [kind.callee];
      } else {
        HitsExactly(children, m);
        EitherHas(TopCalls(children), TopCalls(rest), m);
      }
  }

  lemma EitherHas(a: seq<Callee>, b: seq<Callee>, m: iset<string>)
    ensures (exists c :: c in a + b && Named(c, m))
       <==> (exists c :: c in a && Named(c, m)) || (exists c :: c in b && Named(c, m))
  {
    assert forall c :: c in a + b <==> c in a || c in b;
  }

  // Where a pass comes, and what it asks there.

  /** A topmost call in a function matches. */
  ghost predicate Calls(children: Forest, m: iset<string>) {
    exists c :: c in TopCalls(children) && Named(c, m)
  }

  /** The pass looks below no declaration or assignment, and below a named function only if it qualifies. */
  ghost predicate LooksBelow(kind: Kind, children: Forest, m: iset<string>) {
    match kind
    case Declaration(_) => false
    case Assignment(_, _) => false
    case Function(_, Some(_)) => Calls(children, m)
    case _ => true
  }

  /** The pass comes to a node of this kind with these children. */
  ghost predicate Comes(f: Forest, m: iset<string>, kind: Kind, children: Forest) {
    match f
    case Nil => false
    case Cons(k, below, rest) =>
      || (k == kind && below == children)
      || (LooksBelow(k, below, m) && Comes(below, m, kind, children))
      || Comes(rest, m, kind, children)
  }

  ghost predicate Meets(f: Forest, m: iset<string>, what: (Kind, Forest) -> bool) {
    exists kind, children :: Comes(f, m, kind, children) && what(kind, children)
  }

  lemma MeetsOne(k: Kind, below: Forest, rest: Forest, m: iset<string>, what: (Kind, Forest) -> bool)
    ensures Meets(Cons(k, below, rest), m, what)
       <==> what(k, below) || (LooksBelow(k, below, m) && Meets(below, m, what)) || Meets(rest, m, what)
  {
    var f := Cons(k, below, rest);
    assert Comes(f, m, k, below);
    if kind, children :| Comes(rest, m, kind, children) && what(kind, children) {
      assert Comes(f, m, kind, children);
    }
    if LooksBelow(k, below, m) {
      if kind, children :| Comes(below, m, kind, children) && what(kind, children) {
        assert Comes(f, m, kind, children);
      }
    }
  }

  /** A copy of a name in the set has a name that is not, or a named function that calls one. */
  ghost predicate Lacks(kind: Kind, children: Forest, m: iset<string>) {
    match kind
    case Declaration(ds) => exists to, from :: Declarator(Some(to), Some(from)) in ds && from in m && to !in m
    case Assignment(Some(to), Some(from)) => from in m && to !in m
    case Function(_, Some(name)) => name !in m && Calls(children, m)
    case _ => false
  }

  lemma DeclaresExactly(ds: seq<Declarator>, m: iset<string>)
    ensures Declares(ds, m)
       <==> !exists to, from :: Declarator(Some(to), Some(from)) in ds && from in m && to !in m
  {
    if to, from :| Declarator(Some(to), Some(from)) in ds && from in m && to !in m {
      var d := Declarator(Some(to), Some(from));
      assert !Copies(d.id, d.init, m);
    }
    if !Declares(ds, m) {
      var d :| d in ds && !Copies(d.id, d.init, m);
      assert d == Declarator(Some(d.id.value), Some(d.init.value));
    }
  }

  /** A set of names is closed if and only if it lacks nothing where the pass comes with it. */
  lemma {:induction false} ClosedExactly(f: Forest, m: iset<string>, what: (Kind, Forest) -> bool)
    requires forall kind, children :: what(kind, children) <==> Lacks(kind, children, m)
    ensures Closed(f, m) <==> !Meets(f, m, what)
    decreases f
  {
    match f
    case Nil =>
    case Cons(kind, below, rest) =>
      HitsExactly(below, m);
      if kind.Declaration? {
        DeclaresExactly(kind.declarators, m);
      }
      ClosedExactly(below, m, what);
      ClosedExactly(rest, m, what);
      MeetsOne(kind, below, rest, m, what);
  }

  ghost predicate Qualifies(kind: Kind, children: Forest, m: iset<string>, id: nat) {
    kind.Function? && kind.id == id && kind.name.Some? && Calls(children, m)
  }

  /** The functions marked are the named ones that the pass comes to and that hold a matching call. */
  lemma {:induction false} QualifyingExactly(f: Forest, m: iset<string>, id: nat, what: (Kind, Forest) -> bool)
    requires forall kind, children :: what(kind, children) <==> Qualifies(kind, children, m, id)
    ensures id in Qualifying(f, m) <==> Meets(f, m, what)
    decreases f
  {
    match f
    case Nil =>
    case Cons(kind, below, rest) =>
      HitsExactly(below, m);
      QualifyingExactly(below, m, id, what);
      QualifyingExactly(rest, m, id, what);
      MeetsOne(kind, below, rest, m, what);
  }

  lemma {:induction false} UnnameableExactly(f: Forest)
    ensures Unnameable(f) <==> exists c :: c in TopCalls(f) && c.Other?
  {
    match f
    case Nil =>
    case Cons(kind, children, rest) =>
      UnnameableExactly(rest);
      if kind.Call? {
        assert kind.callee in TopCalls(f);
        assert forall c :: c in TopCalls(f) <==> c == kind.callee || c in TopCalls(rest);
      } else {
        UnnameableExactly(children);
        assert forall c :: c in TopCalls(f) <==> c in TopCalls(children) || c in TopCalls(rest);
      }
  }

  /** A topmost call in a named function has a callee of another kind. */
  ghost predicate Stops(kind: Kind, children: Forest) {
    kind.Function? && kind.name.Some? && exists c :: c in TopCalls(children) && c.Other?
  }

  /** The pass meets no error if and only if it comes to no such function. */
  lemma {:induction false} SafeExactly(f: Forest, m: iset<string>, what: (Kind, Forest) -> bool)
    requires forall kind, children :: what(kind, children) <==> Stops(kind, children)
    ensures Safe(f, m) <==> !Meets(f, m, what)
    decreases f
  {
    match f
    case Nil =>
    case Cons(kind, below, rest) =>
      HitsExactly(below, m);
      UnnameableExactly(below);
      SafeExactly(below, m, what);
      SafeExactly(rest, m, what);
      MeetsOne(kind, below, rest, m, what);
  }

  ghost function Undotted(): iset<string> {
    iset x: string | '.' !in x
  }

  predicate OnlyMemberCalls(f: Forest) {
    forall c :: c in TopCalls(f) ==> c.Member?
  }

  /** All named functions hold member calls only, and no identifier holds a dot. */
  predicate MemberProgram(f: Forest)
    decreases f
  {
    match f
    case Nil => true
    case Cons(kind, children, rest) =>
      && (kind.Function? && kind.name.Some? ==> OnlyMemberCalls(children))
      && (forall x :: x in Own(kind) ==> '.' !in x)
      && MemberProgram(children) && MemberProgram(rest)
  }

  lemma MembersMiss(f: Forest)
    requires OnlyMemberCalls(f)
    ensures !Hits(f, Undotted())
  {
    HitsExactly(f, Undotted());
    forall c | c in TopCalls(f) ensures !Named(c, Undotted()) {
      assert (c.owner + "." + c.property)[|c.owner|] == '.';
    }
  }

  lemma {:induction false} MembersClosed(f: Forest)
    requires MemberProgram(f)
    ensures Closed(f, Undotted()) && Qualifying(f, Undotted()) == {}
  {
    match f
    case Nil =>
    case Cons(kind, children, rest) =>
      MembersClosed(children);
      MembersClosed(rest);
      if kind.Function? && kind.name.Some? {
        MembersMiss(children);
      }
      if kind.Declaration? {
        forall d | d in kind.declarators ensures Copies(d.id, d.init, Undotted()) {
          assert d.id.Some? ==> d.id.value in Own(kind);
        }
      }
      if kind.Assignment? && kind.left.Some? {
        assert kind.left.value in Own(kind);
      }
  }

  lemma {:induction false} QualifyingMonotone(f: Forest, small: iset<string>, large: iset<string>)
    requires small <= large
    ensures Qualifying(f, small) <= Qualifying(f, large)
    decreases f
  {
    match f
    case Nil =>
    case Cons(kind, children, rest) =>
      QualifyingMonotone(rest, small, large);
      QualifyingMonotone(children, small, large);
      if Hits(children, small) {
        HitsMonotone(children, small, large);
      }
  }

  /** Names without a dot never reach a member call: no function of such a program is marked, whatever else it copies.
      */
  lemma MembersUnmarked(f: Forest, given: seq<Pattern>, m: iset<string>)
    requires MemberProgram(f) && Least(f, given, m)
    requires forall p :: p in given ==> p.Literal? && '.' !in p.name
    ensures Qualifying(f, m) == {}
  {
    MembersClosed(f);
    forall x | x in Matched(given) ensures x in Undotted() {
      var i :| 0 <= i < |given| && Matching(given[i], x);
      assert given[i] in given;
    }
    assert Covers(f, given, Undotted());
    QualifyingMonotone(f, m, Undotted());
  }

  // Declarations and assignments.

  /** A program that only copies. */
  predicate Straight(f: Forest) {
    match f
    case Nil => true
    case Cons(kind, _, rest) => (kind.Declaration? || kind.Assignment?) && Straight(rest)
  }

  /** The program copies `from` into `to` somewhere. */
  predicate CopiesInto(f: Forest, from: string, to: string) {
    match f
    case Nil => false
    case Cons(Declaration(ds), _, rest) => Declarator(Some(to), Some(from)) in ds || CopiesInto(rest, from, to)
    case Cons(Assignment(l, r), _, rest) => (l == Some(to) && r == Some(from)) || CopiesInto(rest, from, to)
    case Cons(_, _, rest) => CopiesInto(rest, from, to)
  }

  /** A chain of copies, in whatever order the program makes them. */
  predicate Chain(f: Forest, path: seq<string>) {
    forall i :: 0 < i < |path| ==> CopiesInto(f, path[i - 1], path[i])
  }

  ghost predicate Reached(f: Forest, given: seq<Pattern>, x: string) {
    exists path: seq<string> :: path != [] && Matches(given, path[0]) && Chain(f, path) && path[|path| - 1] == x
  }

  lemma {:induction false} CopyInClosed(f: Forest, m: iset<string>, from: string, to: string)
    requires Straight(f) && Closed(f, m) && CopiesInto(f, from, to) && from in m
    ensures to in m
  {
    match f
    case Cons(kind, _, rest) =>
      if CopiesInto(rest, from, to) {
        CopyInClosed(rest, m, from, to);
      } else if kind.Declaration? {
        assert Copies(Declarator(Some(to), Some(from)).id, Declarator(Some(to), Some(from)).init, m);
      } else {
        assert Copies(kind.left, kind.right, m);
      }
  }

  lemma {:induction false} ChainInClosed(f: Forest, m: iset<string>, path: seq<string>)
    requires Straight(f) && Closed(f, m) && path != [] && path[0] in m && Chain(f, path)
    ensures path[|path| - 1] in m
  {
    if |path| > 1 {
      var n := |path| - 1;
      assert Chain(f, path[..n]) by {
        forall i | 0 < i < n ensures CopiesInto(f, path[..n][i - 1], path[..n][i]) {
          assert CopiesInto(f, path[i - 1], path[i]);
        }
      }
      ChainInClosed(f, m, path[..n]);
      CopyInClosed(f, m, path[n - 1], path[n]);
    }
  }

  /** A set into which every copy of the program leads is closed. */
  lemma {:induction false} CopiesClose(f: Forest, m: iset<string>)
    requires Straight(f) && forall from, to :: CopiesInto(f, from, to) && from in m ==> to in m
    ensures Closed(f, m)
  {
    match f
    case Nil =>
    case Cons(kind, children, rest) =>
      forall from, to | CopiesInto(rest, from, to) && from in m ensures to in m {
        assert CopiesInto(f, from, to);
      }
      CopiesClose(rest, m);
      if kind.Declaration? {
        forall d | d in kind.declarators ensures Copies(d.id, d.init, m) {
          if d.id.Some? && d.init.Some? {
            assert d == Declarator(Some(d.id.value), Some(d.init.value));
            assert CopiesInto(f, d.init.value, d.id.value);
          }
        }
      } else if kind.left.Some? && kind.right.Some? {
        assert CopiesInto(f, kind.right.value, kind.left.value);
      }
  }

  lemma ReachesOn(f: Forest, given: seq<Pattern>, from: string, to: string)
    requires Reached(f, given, from) && CopiesInto(f, from, to)
    ensures Reached(f, given, to)
  {
    var path: seq<string> :| path != [] && Matches(given, path[0]) && Chain(f, path) && path[|path| - 1] == from;
    var longer := path + [to];
    forall i | 0 < i < |longer| ensures CopiesInto(f, longer[i - 1], longer[i]) {
      assert i < |path| ==> CopiesInto(f, path[i - 1], path[i]);
    }
    assert longer[0] == path[0] && longer[|longer| - 1] == to && Chain(f, longer);
  }

  /** A program that only copies matches exactly the names that a chain of copies leads to from a given one. */
  lemma CopiesExactly(f: Forest, given: seq<Pattern>, m: iset<string>, x: string)
    requires Straight(f) && Least(f, given, m)
    ensures x in m <==> Reached(f, given, x)
  {
    var reached := iset y: string | Reached(f, given, y);
    forall from, to | CopiesInto(f, from, to) && from in reached ensures to in reached {
      ReachesOn(f, given, from, to);
    }
    CopiesClose(f, reached);
    forall y | y in Matched(given) ensures y in reached {
      var path := [y];
      assert path[0] == y && Chain(f, path);
    }
    assert Covers(f, given, reached);
    if Reached(f, given, x) {
      var path: seq<string> :| path != [] && Matches(given, path[0]) && Chain(f, path) && path[|path| - 1] == x;
      assert path[0] in Matched(given);
      ChainInClosed(f, m, path);
    }
  }

  // Programs the rewriter is documented by, with the names given in their first line.

  function CallOf(name: string): Forest {
    Cons(Call(Identifier(name)), Nil, Nil)
  }

  function FunctionWith(id: nat, name: string, body: Forest, rest: Forest): Forest {
    Cons(Function(id, Some(name)), body, rest)
  }

  /** Three functions in a ring, and one name given. */
  function Multiple(): Forest {
    FunctionWith(0, "foo", CallOf("baz"),
                 FunctionWith(1, "bar", CallOf("foo"), FunctionWith(2, "baz", CallOf("bar"), Nil)))
  }

  /** The name given reaches the first by the second and the third, so all three are marked. */
  lemma MultipleMarksAll(m: iset<string>)
    requires Least(Multiple(), [Literal("foo")], m)
    ensures Qualifying(Multiple(), m) == {0, 1, 2}
  {
    Given("foo");
    assert "foo" in m && "bar" in m && "baz" in m;
  }

  lemma Given(name: string)
    ensures Matched([Literal(name)]) == iset{name}
  {
    assert Matching([Literal(name)][0], name);
  }

  /** Two copies of a name, a function of that name, and two functions that call the copies. */
  function Assigned(): Forest {
    Cons(Assignment(Some("baz"), Some("foo")), Nil,
         Cons(Declaration([Declarator(Some("biz"), Some("foo"))]), Nil,
              FunctionWith(0, "foo", Nil,
                           FunctionWith(1, "bar", CallOf("baz"), FunctionWith(2, "bir", CallOf("biz"), Nil)))))
  }

  /** The functions that call the copies are marked, and the function of the given name is not. */
  lemma AssignedMarksCallers(m: iset<string>)
    requires Least(Assigned(), [Literal("foo")], m)
    ensures Qualifying(Assigned(), m) == {1, 2}
  {
    Given("foo");
    assert Copies(Some("biz"), Some("foo"), m) by {
      var d := Declarator(Some("biz"), Some("foo"));
      assert d in [d] && Copies(d.id, d.init, m);
    }
    assert "baz" in m && "biz" in m;
  }

  /** A callback that makes the given call, handed to a call of something else inside a function. */
  function Callback(): Forest {
    FunctionWith(0, "outer", Cons(Call(Identifier("each")), FunctionWith(1, "inner", CallOf("get"), Nil), Nil), Nil)
  }

  /** The search stops at the outer call, so neither function is marked; at the top level the callback would be. */
  lemma CallbackIsMissed(m: iset<string>, n: iset<string>)
    requires Least(Callback(), [Literal("get")], m)
    requires Least(Callback().children, [Literal("get")], n)
    ensures Qualifying(Callback(), m) == {} && Qualifying(Callback().children, n) == {1}
  {
    Given("get");
    var only := iset{"get"};
    assert Covers(Callback(), [Literal("get")], only);
    assert "each" !in m && "get" in n;
  }
}

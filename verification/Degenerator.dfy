/** The pass that finds, from a list of asynchronous function names, every further name that stands for one. */
module Degenerator {
  import opened Options

  /** An entry of the names list: a name or a regular expression, the latter given by what it matches. */
  datatype Pattern = Literal(name: string) | Regex(test: string -> bool)

  /** What is called. `Nameless` callees never match; an `Other` callee makes the program stop with an error. */
  datatype Callee = Identifier(name: string) | Member(owner: string, property: string) | Nameless | Other

  /** One declared variable; each part is present when the syntax tree holds a plain identifier there. */
  datatype Declarator = Declarator(id: Option<string>, init: Option<string>)

  datatype Kind =
    | Declaration(declarators: seq<Declarator>)
    | Assignment(left: Option<string>, right: Option<string>)
    | Function(id: nat, name: Option<string>)
    | Call(callee: Callee)
    | Plain

  /** A list of syntax trees: the first one's kind and children, and the trees after it. */
  datatype Forest = Nil | Cons(kind: Kind, children: Forest, rest: Forest)

  predicate Matching(p: Pattern, name: string) {
    match p
    case Literal(n) => name == n
    case Regex(test) => test(name)
  }

  predicate Matches(names: seq<Pattern>, name: string) {
    exists i | 0 <= i < |names| :: Matching(names[i], name)
  }

  /** Every name that a list of patterns matches. */
  ghost function Matched(names: seq<Pattern>): iset<string> {
    iset x: string | Matches(names, x)
  }

  function NameOf(c: Callee): Option<string> {
    match c
    case Identifier(n) => Some(n)
    case Member(o, p) => Some(o + "." + p)
    case Nameless => None
    case Other => None
  }

  // The calls that a search which stops at each call it meets finds in a function.

  ghost predicate Hits(f: Forest, m: iset<string>) {
    match f
    case Nil => false
    case Cons(Call(c), _, rest) => (NameOf(c).Some? && NameOf(c).value in m) || Hits(rest, m)
    case Cons(_, children, rest) => Hits(children, m) || Hits(rest, m)
  }

  predicate Unnameable(f: Forest) {
    match f
    case Nil => false
    case Cons(Call(c), _, rest) => c.Other? || Unnameable(rest)
    case Cons(_, children, rest) => Unnameable(children) || Unnameable(rest)
  }

  // The rules. Nothing below a declaration, an assignment or a named function without a matching call is visited.

  ghost predicate Closed(f: Forest, m: iset<string>)
    decreases f, 0
  {
    match f
    case Nil => true
    case Cons(kind, children, rest) => ClosedAt(kind, children, m) && Closed(rest, m)
  }

  ghost predicate ClosedAt(kind: Kind, children: Forest, m: iset<string>)
    decreases children, 1
  {
    match kind
    case Declaration(ds) => Declares(ds, m)
    case Assignment(l, r) => Copies(l, r, m)
    case Function(_, Some(name)) => Hits(children, m) ==> name in m && Closed(children, m)
    case _ => Closed(children, m)
  }

  ghost predicate Copies(to: Option<string>, from: Option<string>, m: iset<string>) {
    to.Some? && from.Some? && from.value in m ==> to.value in m
  }

  ghost predicate Declares(ds: seq<Declarator>, m: iset<string>) {
    forall d | d in ds :: Copies(d.id, d.init, m)
  }

  /** No visited named function holds a call whose callee has no name to check. */
  ghost predicate Safe(f: Forest, m: iset<string>)
    decreases f, 0
  {
    match f
    case Nil => true
    case Cons(kind, children, rest) => SafeAt(kind, children, m) && Safe(rest, m)
  }

  ghost predicate SafeAt(kind: Kind, children: Forest, m: iset<string>)
    decreases children, 1
  {
    match kind
    case Declaration(_) => true
    case Assignment(_, _) => true
    case Function(_, Some(name)) => !Unnameable(children) && (Hits(children, m) ==> Safe(children, m))
    case _ => Safe(children, m)
  }

  /** The visited named functions that hold a matching call. */
  ghost function Qualifying(f: Forest, m: iset<string>): set<nat>
    decreases f, 0
  {
    match f
    case Nil => {}
    case Cons(kind, children, rest) => QualifyingAt(kind, children, m) + Qualifying(rest, m)
  }

  ghost function QualifyingAt(kind: Kind, children: Forest, m: iset<string>): set<nat>
    decreases children, 1
  {
    match kind
    case Declaration(_) => {}
    case Assignment(_, _) => {}
    case Function(id, Some(name)) => if Hits(children, m) then {id} + Qualifying(children, m) else {}
    case _ => Qualifying(children, m)
  }

  /** Closed under the rules and holding every name of `given`. */
  ghost predicate Covers(ast: Forest, given: seq<Pattern>, m: iset<string>) {
    Matched(given) <= m && Closed(ast, m)
  }

  ghost predicate Least(ast: Forest, given: seq<Pattern>, m: iset<string>) {
    Covers(ast, given, m) && forall other | Covers(ast, given, other) :: m <= other
  }

  /** The names that some declaration, assignment or function could add. */
  function Candidates(f: Forest): set<string> {
    match f
    case Nil => {}
    case Cons(kind, children, rest) => Own(kind) + Candidates(children) + Candidates(rest)
  }

  function Own(k: Kind): set<string> {
    match k
    case Declaration(ds) => set d | d in ds && d.id.Some? :: d.id.value
    case Assignment(Some(l), _) => {l}
    case Function(_, Some(name)) => {name}
    case _ => {}
  }

  // What one pass does to the names and the marks.

  datatype State = State(names: seq<Pattern>, marks: set<nat>)

  function Learn(name: string, names: seq<Pattern>): seq<Pattern> {
    if Matches(names, name) then names else names + [Literal(name)]
  }

  function Copy(to: Option<string>, from: Option<string>, names: seq<Pattern>): seq<Pattern> {
    if to.Some? && from.Some? && Matches(names, from.value) then Learn(to.value, names) else names
  }

  function Declare(ds: seq<Declarator>, names: seq<Pattern>): seq<Pattern> {
    if ds == [] then names
    else
      var before := Declare(ds[..|ds| - 1], names);
      Copy(ds[|ds| - 1].id, ds[|ds| - 1].init, before)
  }

  /** One pass from left to right, the names growing under way; nothing when it stops with an error. */
  ghost function Pass(f: Forest, s: State): Option<State>
    decreases f, 0
  {
    match f
    case Nil => Some(s)
    case Cons(kind, children, rest) =>
      var first := Visit(kind, children, s);
      if first.None? then None else Pass(rest, first.value)
  }

  ghost function Visit(kind: Kind, children: Forest, s: State): Option<State>
    decreases children, 1
  {
    match kind
    case Declaration(ds) => Some(s.(names := Declare(ds, s.names)))
    case Assignment(l, r) => Some(s.(names := Copy(l, r, s.names)))
    case Function(id, Some(name)) =>
      if Unnameable(children) then None
      else if !Hits(children, Matched(s.names)) then Some(s)
      else Pass(children, State(Learn(name, s.names), s.marks + {id}))
    case _ => Pass(children, s)
  }

  // One step adds at most one new candidate.

  /** `after` continues `before` with distinct new names out of `allowed`. */
  ghost predicate Grown(before: seq<Pattern>, after: seq<Pattern>, allowed: set<string>) {
    && before <= after
    && (forall i | |before| <= i < |after| :: Added(after, i, allowed))
  }

  ghost predicate Added(names: seq<Pattern>, i: nat, allowed: set<string>)
    requires i < |names|
  {
    names[i].Literal? && names[i].name in allowed && !Matches(names[..i], names[i].name)
  }

  lemma LearnGrows(name: string, names: seq<Pattern>, allowed: set<string>)
    requires name in allowed
    ensures Grown(names, Learn(name, names), allowed)
  {
    assert (names + [Literal(name)])[..|names|] == names;
  }

  lemma GrownTrans(a: seq<Pattern>, b: seq<Pattern>, c: seq<Pattern>, allowed: set<string>)
    requires Grown(a, b, allowed) && Grown(b, c, allowed)
    ensures Grown(a, c, allowed)
  {
    forall i | |a| <= i < |c| ensures Added(c, i, allowed) {
      if i < |b| {
        assert Added(b, i, allowed);
        assert b[..i] == c[..i];
      }
    }
  }

  lemma GrownMatches(a: seq<Pattern>, b: seq<Pattern>, allowed: set<string>)
    requires Grown(a, b, allowed)
    ensures Matched(a) <= Matched(b)
    ensures |a| == |b| ==> a == b
  {
    forall x | Matches(a, x) ensures Matches(b, x) {
      var i :| 0 <= i < |a| && Matching(a[i], x);
      assert Matching(b[i], x);
    }
  }

  lemma LearnMatches(name: string, names: seq<Pattern>)
    ensures Matched(Learn(name, names)) == Matched(names) + iset{name}
  {
    var after := Learn(name, names);
    forall x ensures Matches(after, x) <==> Matches(names, x) || x == name {
      if Matches(names, x) {
        var i :| 0 <= i < |names| && Matching(names[i], x);
        assert Matching(after[i], x);
      } else if x == name {
        assert Matching(after[|names|], x);
      }
    }
  }

  lemma {:induction false} DeclareGrows(ds: seq<Declarator>, names: seq<Pattern>, allowed: set<string>)
    requires forall d | d in ds && d.id.Some? :: d.id.value in allowed
    ensures Grown(names, Declare(ds, names), allowed)
  {
    if ds != [] {
      var before := Declare(ds[..|ds| - 1], names);
      DeclareGrows(ds[..|ds| - 1], names, allowed);
      var d := ds[|ds| - 1];
      assert d in ds;
      if d.id.Some? {
        LearnGrows(d.id.value, before, allowed);
        GrownTrans(names, before, Learn(d.id.value, before), allowed);
      }
    }
  }

  lemma {:induction false} PassGrows(f: Forest, s: State, allowed: set<string>)
    requires Pass(f, s).Some? && Candidates(f) <= allowed
    ensures Grown(s.names, Pass(f, s).value.names, allowed)
    ensures s.marks <= Pass(f, s).value.marks
    decreases f, 0
  {
    match f
    case Nil =>
    case Cons(kind, children, rest) =>
      var first := Visit(kind, children, s).value;
      VisitGrows(kind, children, s, allowed);
      PassGrows(rest, first, allowed);
      GrownTrans(s.names, first.names, Pass(rest, first).value.names, allowed);
  }

  lemma {:induction false} VisitGrows(kind: Kind, children: Forest, s: State, allowed: set<string>)
    requires Visit(kind, children, s).Some? && Own(kind) + Candidates(children) <= allowed
    ensures Grown(s.names, Visit(kind, children, s).value.names, allowed)
    ensures s.marks <= Visit(kind, children, s).value.marks
    decreases children, 1
  {
    match kind
    case Declaration(ds) => DeclareGrows(ds, s.names, allowed);
    case Assignment(l, r) =>
      if l.Some? {
        LearnGrows(l.value, s.names, allowed);
      }
    case Function(id, Some(name)) =>
      if Hits(children, Matched(s.names)) {
        var learnt := State(Learn(name, s.names), s.marks + {id});
        LearnGrows(name, s.names, allowed);
        PassGrows(children, learnt, allowed);
        GrownTrans(s.names, learnt.names, Pass(children, learnt).value.names, allowed);
      }
    case _ => PassGrows(children, s, allowed);
  }

  // Nothing outside a closed set is ever added, marked or stopped at.

  lemma {:induction false} HitsMonotone(f: Forest, small: iset<string>, large: iset<string>)
    requires small <= large && Hits(f, small)
    ensures Hits(f, large)
  {
    match f
    case Nil =>
    case Cons(kind, children, rest) =>
      if Hits(rest, small) {
        HitsMonotone(rest, small, large);
      } else if !kind.Call? {
        HitsMonotone(children, small, large);
      }
  }

  lemma CopyStays(to: Option<string>, from: Option<string>, names: seq<Pattern>, m: iset<string>)
    requires Matched(names) <= m && Copies(to, from, m)
    ensures Matched(Copy(to, from, names)) <= m
  {
    if to.Some? && from.Some? && Matches(names, from.value) {
      assert from.value in Matched(names);
      LearnMatches(to.value, names);
    }
  }

  lemma {:induction false} DeclareStays(ds: seq<Declarator>, names: seq<Pattern>, m: iset<string>)
    requires Matched(names) <= m && Declares(ds, m)
    ensures Matched(Declare(ds, names)) <= m
  {
    if ds != [] {
      var d := ds[|ds| - 1];
      assert d in ds;
      DeclareStays(ds[..|ds| - 1], names, m);
      CopyStays(d.id, d.init, Declare(ds[..|ds| - 1], names), m);
    }
  }

  lemma {:induction false} PassStays(f: Forest, s: State, m: iset<string>)
    requires Matched(s.names) <= m && Closed(f, m)
    ensures Pass(f, s).None? ==> !Safe(f, m)
    ensures Pass(f, s).Some? ==> Matched(Pass(f, s).value.names) <= m
    ensures Pass(f, s).Some? ==> Pass(f, s).value.marks <= s.marks + Qualifying(f, m)
    decreases f, 0
  {
    match f
    case Nil =>
    case Cons(kind, children, rest) =>
      VisitStays(kind, children, s, m);
      if Visit(kind, children, s).Some? {
        PassStays(rest, Visit(kind, children, s).value, m);
      }
  }

  lemma {:induction false} VisitStays(kind: Kind, children: Forest, s: State, m: iset<string>)
    requires Matched(s.names) <= m && ClosedAt(kind, children, m)
    ensures Visit(kind, children, s).None? ==> !SafeAt(kind, children, m)
    ensures Visit(kind, children, s).Some? ==> Matched(Visit(kind, children, s).value.names) <= m
    ensures Visit(kind, children, s).Some? ==>
              Visit(kind, children, s).value.marks <= s.marks + QualifyingAt(kind, children, m)
    decreases children, 1
  {
    match kind
    case Declaration(ds) => DeclareStays(ds, s.names, m);
    case Assignment(l, r) => CopyStays(l, r, s.names, m);
    case Function(id, Some(name)) =>
      if !Unnameable(children) && Hits(children, Matched(s.names)) {
        HitsMonotone(children, Matched(s.names), m);
        LearnMatches(name, s.names);
        PassStays(children, State(Learn(name, s.names), s.marks + {id}), m);
      }
    case _ => PassStays(children, s, m);
  }

  // A pass that adds no name has checked every rule.

  lemma {:induction false} DeclareSettles(ds: seq<Declarator>, names: seq<Pattern>)
    requires Declare(ds, names) == names
    ensures Declares(ds, Matched(names))
  {
    if ds != [] {
      var d := ds[|ds| - 1];
      var allowed := Own(Declaration(ds));
      assert d in ds;
      DeclareGrows(ds[..|ds| - 1], names, allowed);
      var before := Declare(ds[..|ds| - 1], names);
      assert |before| == |names|;
      GrownMatches(names, before, allowed);
      DeclareSettles(ds[..|ds| - 1], names);
      forall e | e in ds ensures Copies(e.id, e.init, Matched(names)) {
        if e in ds[..|ds| - 1] {
        } else {
          assert e == d;
        }
      }
    }
  }

  lemma {:induction false} PassSettles(f: Forest, s: State)
    requires Pass(f, s).Some? && Pass(f, s).value.names == s.names
    ensures Closed(f, Matched(s.names)) && Safe(f, Matched(s.names))
    ensures Pass(f, s).value.marks == s.marks + Qualifying(f, Matched(s.names))
    decreases f, 0
  {
    match f
    case Nil =>
    case Cons(kind, children, rest) =>
      var first := Visit(kind, children, s).value;
      var allowed := Candidates(f);
      VisitGrows(kind, children, s, allowed);
      PassGrows(rest, first, allowed);
      GrownMatches(s.names, first.names, allowed);
      VisitSettles(kind, children, s);
      PassSettles(rest, first);
  }

  lemma {:induction false} VisitSettles(kind: Kind, children: Forest, s: State)
    requires Visit(kind, children, s).Some? && Visit(kind, children, s).value.names == s.names
    ensures ClosedAt(kind, children, Matched(s.names)) && SafeAt(kind, children, Matched(s.names))
    ensures Visit(kind, children, s).value.marks == s.marks + QualifyingAt(kind, children, Matched(s.names))
    decreases children, 1
  {
    match kind
    case Declaration(ds) => DeclareSettles(ds, s.names);
    case Assignment(l, r) =>
    case Function(id, Some(name)) =>
      if Hits(children, Matched(s.names)) {
        var learnt := State(Learn(name, s.names), s.marks + {id});
        var allowed := Own(kind) + Candidates(children);
        LearnGrows(name, s.names, allowed);
        LearnMatches(name, s.names);
        PassGrows(children, learnt, allowed);
        GrownMatches(s.names, learnt.names, allowed);
        PassSettles(children, learnt);
      }
    case _ => PassSettles(children, s);
  }

  // The program.

  /** Candidates that are still unmatched: each pass but the last uses at least one up. */
  function Open(ast: Forest, names: seq<Pattern>): set<string> {
    set x | x in Candidates(ast) && !Matches(names, x)
  }

  lemma GrowthUses(ast: Forest, before: seq<Pattern>, after: seq<Pattern>)
    requires Grown(before, after, Candidates(ast)) && |before| < |after|
    ensures Open(ast, after) < Open(ast, before)
  {
    GrownMatches(before, after, Candidates(ast));
    forall x | x in Open(ast, after) ensures x in Open(ast, before) {
      assert x !in Matched(after);
    }
    var i := |before|;
    assert Added(after, i, Candidates(ast));
    assert after[..i] == before;
    assert Matching(after[i], after[i].name);
    assert after[i].name in Open(ast, before) && after[i].name !in Open(ast, after);
  }

  method CheckName(name: string, names: seq<Pattern>) returns (found: bool)
    ensures found <==> Matches(names, name)
  {
    for i := 0 to |names|
      invariant forall j | 0 <= j < i :: !Matching(names[j], name)
    {
      if names[i].Regex? {
        if names[i].test(name) {
          return true;
        }
      } else if name == names[i].name {
        return true;
      }
    }
    return false;
  }

  /** Fails on a callee of another kind. */
  method CheckNames(callee: Callee, names: seq<Pattern>) returns (ok: bool, found: bool)
    ensures ok <==> !callee.Other?
    ensures found <==> NameOf(callee).Some? && NameOf(callee).value in Matched(names)
    ensures match callee
            case Identifier(n) => found <==> exists i :: 0 <= i < |names| && Matching(names[i], n)
            case Member(o, p) => found <==> exists i :: 0 <= i < |names| && Matching(names[i], o + "." + p)
            case Nameless => !found
            case Other => !found
  {
    ok, found := true, false;
    match callee
    case Identifier(n) => found := CheckName(n, names);
    case Member(o, p) => found := CheckName(o + "." + p, names);
    case Nameless =>
    case Other => ok := false;
  }

  method FindCalls(f: Forest, names: seq<Pattern>) returns (ok: bool, should: bool)
    ensures ok <==> !Unnameable(f)
    ensures ok ==> (should <==> Hits(f, Matched(names)))
  {
    match f
    case Nil => return true, false;
    case Cons(kind, children, rest) =>
      if kind.Call? {
        ok, should := CheckNames(kind.callee, names);
      } else {
        ok, should := FindCalls(children, names);
      }
      if ok {
        var more;
        ok, more := FindCalls(rest, names);
        should := should || more;
      }
  }

  class Rewriter {
    var names: seq<Pattern>
    var async: set<nat>

    constructor (given: seq<Pattern>, async: set<nat>)
      ensures names == given && this.async == async
    {
      names, this.async := given, async;
    }

    method AddName(name: string)
      modifies this`names
      ensures names == Learn(name, old(names))
    {
      var known := CheckName(name, names);
      if !known {
        names := names + [Literal(name)];
      }
    }

    method VisitPair(to: Option<string>, from: Option<string>)
      modifies this`names
      ensures names == Copy(to, from, old(names))
    {
      if to.Some? && from.Some? {
        var known := CheckName(from.value, names);
        if known {
          AddName(to.value);
        }
      }
    }

    method VisitDeclaration(ds: seq<Declarator>)
      modifies this`names
      ensures names == Declare(ds, old(names))
    {
      for i := 0 to |ds|
        invariant names == Declare(ds[..i], old(names))
      {
        VisitPair(ds[i].id, ds[i].init);
        assert ds[..i + 1][..i] == ds[..i];
      }
      assert ds[..|ds|] == ds;
    }

    method Traverse(f: Forest) returns (ok: bool)
      modifies this
      ensures ok <==> Pass(f, old(State(names, async))).Some?
      ensures ok ==> State(names, async) == Pass(f, old(State(names, async))).value
      decreases f, 0
    {
      match f
      case Nil => ok := true;
      case Cons(kind, children, rest) =>
        ok := VisitTree(kind, children);
        if ok {
          ok := Traverse(rest);
        }
    }

    method VisitTree(kind: Kind, children: Forest) returns (ok: bool)
      modifies this
      ensures ok <==> Visit(kind, children, old(State(names, async))).Some?
      ensures ok ==> State(names, async) == Visit(kind, children, old(State(names, async))).value
      decreases children, 1
    {
      match kind
      case Declaration(ds) =>
        VisitDeclaration(ds);
        ok := true;
      case Assignment(l, r) =>
        VisitPair(l, r);
        ok := true;
      case Function(id, Some(name)) =>
        var should;
        ok, should := FindCalls(children, names);
        if ok && should {
          async := async + {id};
          AddName(name);
          ok := Traverse(children);
        }
      case _ => ok := Traverse(children);
    }

    /** The loop: passes until one adds no name. */
    method FirstPass(ast: Forest) returns (ok: bool)
      modifies this
      ensures ok <==> exists m :: Covers(ast, old(names), m) && Safe(ast, m)
      ensures ok ==> Grown(old(names), names, Candidates(ast))
      ensures ok ==> Least(ast, old(names), Matched(names))
      ensures ok ==> async == old(async) + Qualifying(ast, Matched(names))
    {
      ghost var given, start := names, async;
      ghost var before := State(names, async);
      var last := |names|;
      ok := Traverse(ast);
      Progress(ast, given, start, before);
      if !ok { return; }
      while last != |names|
        invariant last == |before.names| && Pass(ast, before) == Some(State(names, async))
        invariant Between(ast, given, start, before)
        invariant Between(ast, given, start, State(names, async))
        decreases Open(ast, before.names)
      {
        PassGrows(ast, before, Candidates(ast));
        GrowthUses(ast, before.names, names);
        before := State(names, async);
        last := |names|;
        ok := Traverse(ast);
        Progress(ast, given, start, before);
        if !ok { return; }
      }
      Settled(ast, given, start, before, State(names, async));
    }
  }

  /** Between the start and every closed set above it. */
  ghost predicate Between(ast: Forest, given: seq<Pattern>, start: set<nat>, s: State) {
    && Grown(given, s.names, Candidates(ast))
    && start <= s.marks
    && (forall m | Covers(ast, given, m) :: Below(ast, start, s, m))
  }

  ghost predicate Below(ast: Forest, start: set<nat>, s: State, m: iset<string>) {
    Matched(s.names) <= m && s.marks <= start + Qualifying(ast, m)
  }

  lemma Progress(ast: Forest, given: seq<Pattern>, start: set<nat>, s: State)
    requires Between(ast, given, start, s)
    ensures Pass(ast, s).Some? ==> Between(ast, given, start, Pass(ast, s).value)
    ensures Pass(ast, s).None? ==> forall m | Covers(ast, given, m) :: !Safe(ast, m)
  {
    forall m | Covers(ast, given, m)
      ensures Pass(ast, s).None? ==> !Safe(ast, m)
      ensures Pass(ast, s).Some? ==> Below(ast, start, Pass(ast, s).value, m)
    {
      assert Below(ast, start, s, m);
      PassStays(ast, s, m);
    }
    if Pass(ast, s).Some? {
      PassGrows(ast, s, Candidates(ast));
      GrownTrans(given, s.names, Pass(ast, s).value.names, Candidates(ast));
    }
  }

  lemma Settled(ast: Forest, given: seq<Pattern>, start: set<nat>, before: State, after: State)
    requires Between(ast, given, start, before) && Between(ast, given, start, after)
    requires Pass(ast, before) == Some(after) && |before.names| == |after.names|
    ensures Least(ast, given, Matched(after.names)) && Safe(ast, Matched(after.names))
    ensures after.marks == start + Qualifying(ast, Matched(after.names))
  {
    var m := Matched(after.names);
    PassGrows(ast, before, Candidates(ast));
    GrownMatches(before.names, after.names, Candidates(ast));
    PassSettles(ast, before);
    GrownMatches(given, after.names, Candidates(ast));
    assert Covers(ast, given, m);
    assert Below(ast, start, before, m);
    forall other | Covers(ast, given, other) ensures m <= other {
      assert Below(ast, start, after, other);
    }
  }

  /** What a run ends with depends on which names are matched at the start, not on how they are listed. */
  lemma OnlyMatchedNamesMatter(ast: Forest, one: seq<Pattern>, two: seq<Pattern>, m: iset<string>, n: iset<string>)
    requires Matched(one) == Matched(two) && Least(ast, one, m) && Least(ast, two, n)
    ensures m == n && Qualifying(ast, m) == Qualifying(ast, n)
  {
    assert Covers(ast, one, n) && Covers(ast, two, m);
  }
}

/** The per-function taint propagation of tools/dev_scripts/ast_analyzer.go: two growing name sets,
    `headerVars` and `taintedVars`, iterated over the collected assignments until nothing changes. */
module TaintWorklist {

  datatype Expr =
    | Ident(name: string)
    | StringLit(text: string)
    | Selector(x: Expr, sel: string)
    | Call(fun: Expr, args: seq<Expr>)
    | Index(base: Expr, index: Expr)
    | Other(children: seq<Expr>)

  // What does not change during propagation: the constants of the file and the lower-cased,
  // trimmed source text of each expression.
  datatype Env = Env(consts: map<string, string>, text: Expr -> string)

  function LowerChar(c: char): char {
    if 'A' <= c <= 'Z' then c - 'A' + 'a' else c
  }

  function Lower(s: string): string {
    seq(|s|, i requires 0 <= i < |s| => LowerChar(s[i]))
  }

  predicate Contains(s: string, part: string) {
    exists i | 0 <= i <= |s| :: part <= s[i..]
  }

  predicate HasSuffix(s: string, suffix: string) {
    |suffix| <= |s| && s[|s| - |suffix|..] == suffix
  }

  predicate IsQuote(c: char) { c == '"' || c == '`' || c == '\'' }

  function TrimQuotes(s: string): string {
    if s != [] && IsQuote(s[0]) then TrimQuotes(s[1..])
    else if s != [] && IsQuote(s[|s| - 1]) then TrimQuotes(s[..|s| - 1])
    else s
  }

  // Dotted name of an identifier or of a chain of selectors on one, else empty at its root.
  function RootReceiverName(e: Expr): string {
    match e
    case Ident(name) => name
    case Selector(x, sel) => RootReceiverName(x) + "." + sel
    case _ => ""
  }

  function ResolveConst(env: Env, e: Expr): string {
    match e
    case StringLit(text) => Lower(TrimQuotes(text))
    case Ident(name) => if name in env.consts then Lower(TrimQuotes(env.consts[name])) else ""
    case _ => ""
  }

  predicate IsHeaderReceiver(e: Expr, headers: set<string>) {
    var receiver := Lower(RootReceiverName(e));
    Contains(receiver, "header") || HasSuffix(receiver, ".h") || receiver in headers
  }

  predicate IsHeaderGetCall(env: Env, e: Expr, headers: set<string>) {
    && e.Call? && e.fun.Selector? && e.fun.sel == "Get"
    && IsHeaderReceiver(e.fun.x, headers)
    && |e.args| == 1 && ResolveConst(env, e.args[0]) == "origin"
  }

  predicate IsHeaderIndex(env: Env, e: Expr, headers: set<string>) {
    e.Index? && IsHeaderReceiver(e.base, headers) && ResolveConst(env, e.index) == "origin"
  }

  predicate IsHeaderContainer(e: Expr, headers: set<string>) {
    if e.Ident? then e.name in headers
    else
      var raw := Lower(RootReceiverName(e));
      HasSuffix(raw, ".header") || HasSuffix(raw, ".header()") || Contains(raw, "header")
  }

  // The node itself gives taint away.
  predicate Hit(env: Env, n: Expr, tainted: set<string>, headers: set<string>) {
    match n
    case Ident(name) => name in tainted || Lower(name) == "origin"
    case Call(_, _) => IsHeaderGetCall(env, n, headers)
    case Index(_, _) => IsHeaderIndex(env, n, headers)
    case _ => false
  }

  predicate TextHit(env: Env, e: Expr) {
    var raw := env.text(e);
    raw == "origin" || HasSuffix(raw, ".origin") || Contains(raw, "header.get(\"origin\")")
  }

  // The nodes ast.Inspect visits below (and including) an expression, in its order.
  function SubNodes(e: Expr): seq<Expr> {
    [e] +
    match e
    case Selector(x, sel) => SubNodes(x) + [Ident(sel)]
    case Call(fun, args) => SubNodes(fun) + SubNodesAll(args)
    case Index(base, index) => SubNodes(base) + SubNodes(index)
    case Other(children) => SubNodesAll(children)
    case _ => []
  }

  function SubNodesAll(es: seq<Expr>): seq<Expr> {
    if es == [] then [] else SubNodes(es[0]) + SubNodesAll(es[1..])
  }

  ghost predicate AnyHit(env: Env, nodes: seq<Expr>, tainted: set<string>, headers: set<string>) {
    exists n :: n in nodes && Hit(env, n, tainted, headers)
  }

  ghost predicate Tainted(env: Env, e: Expr, tainted: set<string>, headers: set<string>) {
    if e.Ident? then Hit(env, e, tainted, headers)
    else TextHit(env, e) || AnyHit(env, SubNodes(e), tainted, headers)
  }

  lemma AnyHitConcat(env: Env, a: seq<Expr>, b: seq<Expr>, tainted: set<string>, headers: set<string>)
    ensures AnyHit(env, a + b, tainted, headers) <==> AnyHit(env, a, tainted, headers) || AnyHit(env, b, tainted, headers)
  {
    if AnyHit(env, a, tainted, headers) {
      var n :| n in a && Hit(env, n, tainted, headers);
      assert n in a + b;
    }
    if AnyHit(env, b, tainted, headers) {
      var n :| n in b && Hit(env, n, tainted, headers);
      assert n in a + b;
    }
  }

  // ast.Inspect with a callback that raises a flag and prunes once it is raised.
  method Inspect(env: Env, e: Expr, tainted: set<string>, headers: set<string>, found: bool) returns (flag: bool)
    ensures flag == (found || AnyHit(env, SubNodes(e), tainted, headers))
    decreases e
  {
    if found {
      return true;
    }
    var here := Hit(env, e, tainted, headers);
    assert here == AnyHit(env, [e], tainted, headers) by {
      assert e in [e];
    }
    AnyHitConcat(env, [e], SubNodes(e)[1..], tainted, headers);
    assert SubNodes(e) == [e] + SubNodes(e)[1..];
    if here {
      return true;
    }
    flag := false;
    match e
    case Selector(x, sel) =>
      flag := Inspect(env, x, tainted, headers, flag);
      AnyHitConcat(env, SubNodes(x), [Ident(sel)], tainted, headers);
      assert Ident(sel) in [Ident(sel)];
      flag := flag || Hit(env, Ident(sel), tainted, headers);
      assert SubNodes(e)[1..] == SubNodes(x) + [Ident(sel)];
    case Call(fun, args) =>
      flag := Inspect(env, fun, tainted, headers, flag);
      flag := InspectAll(env, args, tainted, headers, flag);
      AnyHitConcat(env, SubNodes(fun), SubNodesAll(args), tainted, headers);
      assert SubNodes(e)[1..] == SubNodes(fun) + SubNodesAll(args);
    case Index(base, index) =>
      flag := Inspect(env, base, tainted, headers, flag);
      flag := Inspect(env, index, tainted, headers, flag);
      AnyHitConcat(env, SubNodes(base), SubNodes(index), tainted, headers);
      assert SubNodes(e)[1..] == SubNodes(base) + SubNodes(index);
    case Other(children) =>
      flag := InspectAll(env, children, tainted, headers, flag);
      assert SubNodes(e)[1..] == SubNodesAll(children);
    case _ =>
  }

  method InspectAll(env: Env, es: seq<Expr>, tainted: set<string>, headers: set<string>, found: bool)
    returns (flag: bool)
    ensures flag == (found || AnyHit(env, SubNodesAll(es), tainted, headers))
    decreases es
  {
    flag := found;
    if es != [] {
      flag := Inspect(env, es[0], tainted, headers, flag);
      flag := InspectAll(env, es[1..], tainted, headers, flag);
      AnyHitConcat(env, SubNodes(es[0]), SubNodesAll(es[1..]), tainted, headers);
    }
  }

  method IsExprTainted(env: Env, e: Expr, tainted: set<string>, headers: set<string>) returns (r: bool)
    ensures r == Tainted(env, e, tainted, headers)
  {
    if e.Ident? {
      return e.name in tainted || Lower(e.name) == "origin";
    }
    if IsHeaderGetCall(env, e, headers) || IsHeaderIndex(env, e, headers) {
      assert SubNodes(e)[0] == e && Hit(env, e, tainted, headers);
      return true;
    }
    if TextHit(env, e) {
      return true;
    }
    r := Inspect(env, e, tainted, headers, false);
  }

  // ---------------------------------------------------------------------------------------------
  // Statement collection.

  datatype Stmt =
    | Assign(lhs: seq<Expr>, rhs: seq<Expr>)
    | VarDecl(names: seq<string>, values: seq<Expr>)
    | Plain(exprs: seq<Expr>)   // anything else, by the expressions in it

  // What ast.Inspect visits in a statement and in a body.
  function StmtNodes(s: Stmt): seq<Expr> {
    match s
    case Assign(lhs, rhs) => SubNodesAll(lhs) + SubNodesAll(rhs)
    case VarDecl(names, values) => seq(|names|, i requires 0 <= i < |names| => Ident(names[i])) + SubNodesAll(values)
    case Plain(exprs) => SubNodesAll(exprs)
  }

  function BodyNodes(body: seq<Stmt>): seq<Expr> {
    if body == [] then [] else StmtNodes(body[0]) + BodyNodes(body[1..])
  }

  lemma {:induction false} BodyNodesAre(body: seq<Stmt>, e: Expr)
    ensures e in BodyNodes(body) <==> exists s :: s in body && e in StmtNodes(s)
  {
    if body != [] {
      BodyNodesAre(body[1..], e);
      assert body == [body[0]] + body[1..];
    }
  }

  datatype Pair = Pair(lhs: string, rhs: Expr)

  ghost predicate Binds(s: Stmt, p: Pair) {
    match s
    case Assign(lhs, rhs) => exists i :: 0 <= i < |lhs| && i < |rhs| && lhs[i] == Ident(p.lhs) && rhs[i] == p.rhs
    case VarDecl(names, values) => exists i :: 0 <= i < |names| && i < |values| && names[i] == p.lhs && values[i] == p.rhs
    case Plain(_) => false
  }

  ghost predicate BoundIn(body: seq<Stmt>, p: Pair) {
    exists s :: s in body && Binds(s, p)
  }

  // Pairs each left-hand name with the right-hand side in the same position; what has no partner is dropped.
  method CollectStatements(body: seq<Stmt>) returns (pairs: seq<Pair>)
    ensures forall p :: p in pairs <==> BoundIn(body, p)
  {
    pairs := [];
    for k := 0 to |body|
      invariant forall p :: p in pairs <==> BoundIn(body[..k], p)
    {
      var here := CollectOne(body[k]);
      assert body[..k + 1] == body[..k] + [body[k]];
      assert forall p :: BoundIn(body[..k + 1], p) <==> BoundIn(body[..k], p) || Binds(body[k], p);
      pairs := pairs + here;
    }
    assert body[..|body|] == body;
  }

  method CollectOne(s: Stmt) returns (pairs: seq<Pair>)
    ensures forall p :: p in pairs <==> Binds(s, p)
  {
    pairs := [];
    match s
    case Assign(lhs, rhs) =>
      for i := 0 to |rhs|
        invariant forall p :: p in pairs <==>
          exists j :: 0 <= j < i && j < |lhs| && lhs[j] == Ident(p.lhs) && rhs[j] == p.rhs
      {
        if i < |lhs| && lhs[i].Ident? {
          pairs := pairs + [Pair(lhs[i].name, rhs[i])];
        }
      }
    case VarDecl(names, values) =>
      for i := 0 to |values|
        invariant forall p :: p in pairs <==>
          exists j :: 0 <= j < i && j < |names| && names[j] == p.lhs && values[j] == p.rhs
      {
        if i < |names| {
          pairs := pairs + [Pair(names[i], values[i])];
        }
      }
    case Plain(_) =>
  }

  // ---------------------------------------------------------------------------------------------
  // The rules, as an inductive derivation and as closed sets.

  datatype Fact = HeaderVar(name: string) | TaintedVar(name: string)

  function Headers(facts: seq<Fact>): set<string> {
    set f | f in facts && f.HeaderVar? :: f.name
  }

  function TaintedNames(facts: seq<Fact>): set<string> {
    set f | f in facts && f.TaintedVar? :: f.name
  }

  // What one assignment concludes from two sets.
  ghost predicate Concludes(env: Env, p: Pair, tainted: set<string>, headers: set<string>, f: Fact) {
    p.lhs == f.name &&
    match f
    case HeaderVar(_) => IsHeaderContainer(p.rhs, headers)
    case TaintedVar(_) => Tainted(env, p.rhs, tainted, headers)
  }

  predicate Holds(f: Fact, tainted: set<string>, headers: set<string>) {
    match f
    case HeaderVar(name) => name in headers
    case TaintedVar(name) => name in tainted
  }

  // One assignment derives the fact from the facts already known.
  ghost predicate Follows(env: Env, p: Pair, known: seq<Fact>, f: Fact) {
    Concludes(env, p, TaintedNames(known), Headers(known), f)
  }

  ghost predicate FactFollows(env: Env, pairs: seq<Pair>, known: seq<Fact>, f: Fact) {
    exists p :: p in pairs && Follows(env, p, known, f)
  }

  ghost predicate Derivation(env: Env, pairs: seq<Pair>, d: seq<Fact>) {
    forall i :: 0 <= i < |d| ==> FactFollows(env, pairs, d[..i], d[i])
  }

  ghost predicate Derivable(env: Env, pairs: seq<Pair>, f: Fact) {
    exists d :: Derivation(env, pairs, d) && f in d
  }

  ghost predicate PairClosed(env: Env, p: Pair, tainted: set<string>, headers: set<string>) {
    forall f :: Concludes(env, p, tainted, headers, f) ==> Holds(f, tainted, headers)
  }

  lemma PairClosedIs(env: Env, p: Pair, tainted: set<string>, headers: set<string>)
    ensures PairClosed(env, p, tainted, headers) <==>
      && (IsHeaderContainer(p.rhs, headers) ==> p.lhs in headers)
      && (Tainted(env, p.rhs, tainted, headers) ==> p.lhs in tainted)
  {
    assert Concludes(env, p, tainted, headers, HeaderVar(p.lhs)) <==> IsHeaderContainer(p.rhs, headers);
    assert Concludes(env, p, tainted, headers, TaintedVar(p.lhs)) <==> Tainted(env, p.rhs, tainted, headers);
  }

  ghost predicate Closed(env: Env, pairs: seq<Pair>, tainted: set<string>, headers: set<string>) {
    forall p :: p in pairs ==> PairClosed(env, p, tainted, headers)
  }

  ghost predicate IsLeastClosed(env: Env, pairs: seq<Pair>, tainted: set<string>, headers: set<string>) {
    && Closed(env, pairs, tainted, headers)
    && forall t, h {:trigger Closed(env, pairs, t, h)} :: Closed(env, pairs, t, h) ==> tainted <= t && headers <= h
  }

  lemma TaintedMonotone(env: Env, e: Expr, t: set<string>, h: set<string>, t': set<string>, h': set<string>)
    requires t <= t' && h <= h'
    ensures IsHeaderContainer(e, h) ==> IsHeaderContainer(e, h')
    ensures Tainted(env, e, t, h) ==> Tainted(env, e, t', h')
  {
    if !e.Ident? && AnyHit(env, SubNodes(e), t, h) {
      var n :| n in SubNodes(e) && Hit(env, n, t, h);
      assert Hit(env, n, t', h');
    }
  }

  /** Soundness of closure: no derivation, however long, leaves a pair of closed sets. */
  lemma {:induction false} DerivationStaysInside(env: Env, pairs: seq<Pair>, d: seq<Fact>, t: set<string>, h: set<string>)
    requires Derivation(env, pairs, d) && Closed(env, pairs, t, h)
    ensures TaintedNames(d) <= t && Headers(d) <= h
  {
    if d != [] {
      var n := |d| - 1;
      DerivationPrefix(env, pairs, d);
      DerivationStaysInside(env, pairs, d[..n], t, h);
      StaysInsideStep(env, pairs, d, t, h);
    }
  }

  lemma DerivationPrefix(env: Env, pairs: seq<Pair>, d: seq<Fact>)
    requires d != [] && Derivation(env, pairs, d)
    ensures Derivation(env, pairs, d[..|d| - 1]) && FactFollows(env, pairs, d[..|d| - 1], d[|d| - 1])
  {
    var before := d[..|d| - 1];
    forall i | 0 <= i < |before| ensures FactFollows(env, pairs, before[..i], before[i]) {
      assert before[..i] == d[..i];
      assert FactFollows(env, pairs, d[..i], d[i]);
    }
  }

  lemma StaysInsideStep(env: Env, pairs: seq<Pair>, d: seq<Fact>, t: set<string>, h: set<string>)
    requires d != [] && FactFollows(env, pairs, d[..|d| - 1], d[|d| - 1]) && Closed(env, pairs, t, h)
    requires TaintedNames(d[..|d| - 1]) <= t && Headers(d[..|d| - 1]) <= h
    ensures TaintedNames(d) <= t && Headers(d) <= h
  {
    var before, f := d[..|d| - 1], d[|d| - 1];
    var p :| p in pairs && Follows(env, p, before, f);
    TaintedMonotone(env, p.rhs, TaintedNames(before), Headers(before), t, h);
    assert PairClosed(env, p, t, h) && Concludes(env, p, t, h, f);
    assert d == before + [f];
  }

  lemma ExtendDerivation(env: Env, pairs: seq<Pair>, d: seq<Fact>, p: Pair, f: Fact)
    requires Derivation(env, pairs, d) && p in pairs && Follows(env, p, d, f)
    ensures Derivation(env, pairs, d + [f])
    ensures Headers(d + [f]) == Headers(d) + (if f.HeaderVar? then {f.name} else {})
    ensures TaintedNames(d + [f]) == TaintedNames(d) + (if f.TaintedVar? then {f.name} else {})
  {
    var longer := d + [f];
    forall i | 0 <= i < |longer|
      ensures FactFollows(env, pairs, longer[..i], longer[i])
    {
      if i < |d| {
        assert longer[..i] == d[..i];
        assert FactFollows(env, pairs, d[..i], d[i]);
      } else {
        assert longer[..i] == d;
      }
    }
  }

  /** Sets reached by a derivation and closed under the rules are exactly the derivable facts, and
      the least closed pair. */
  lemma ClosedDerivationIsLeast(env: Env, pairs: seq<Pair>, d: seq<Fact>)
    requires Derivation(env, pairs, d) && Closed(env, pairs, TaintedNames(d), Headers(d))
    ensures IsLeastClosed(env, pairs, TaintedNames(d), Headers(d))
    ensures forall f :: f in d <==> Derivable(env, pairs, f)
  {
    forall t, h | Closed(env, pairs, t, h)
      ensures TaintedNames(d) <= t && Headers(d) <= h
    {
      DerivationStaysInside(env, pairs, d, t, h);
    }
    forall f | Derivable(env, pairs, f)
      ensures f in d
    {
      var e :| Derivation(env, pairs, e) && f in e;
      DerivationStaysInside(env, pairs, e, TaintedNames(d), Headers(d));
      if f.HeaderVar? {
        assert f.name in Headers(e);
      } else {
        assert f.name in TaintedNames(e);
      }
    }
  }

  /** The result depends on which assignments occur, not on their order or multiplicity. */
  lemma OrderIndependent(env: Env, pairs: seq<Pair>, pairs': seq<Pair>,
                         t: set<string>, h: set<string>, t': set<string>, h': set<string>)
    requires forall p :: p in pairs <==> p in pairs'
    requires IsLeastClosed(env, pairs, t, h) && IsLeastClosed(env, pairs', t', h')
    ensures t == t' && h == h'
  {
    assert Closed(env, pairs, t', h') && Closed(env, pairs', t, h);
  }

  /** More assignments never lose a finding: both sets, and the taint of every expression, grow. */
  lemma MoreStatementsMoreTaint(env: Env, pairs: seq<Pair>, pairs': seq<Pair>,
                                t: set<string>, h: set<string>, t': set<string>, h': set<string>, e: Expr)
    requires forall p :: p in pairs ==> p in pairs'
    requires IsLeastClosed(env, pairs, t, h) && IsLeastClosed(env, pairs', t', h')
    ensures t <= t' && h <= h' && (Tainted(env, e, t, h) ==> Tainted(env, e, t', h'))
  {
    assert Closed(env, pairs, t', h');
    TaintedMonotone(env, e, t, h, t', h');
  }

  // ---------------------------------------------------------------------------------------------
  // The worklist loop.

  ghost function Names(pairs: seq<Pair>): set<string> {
    set p | p in pairs :: p.lhs
  }

  lemma SetSizeBound<T>(small: set<T>, large: set<T>)
    requires small <= large
    ensures |small| <= |large|
  {
    if small != {} {
      var x :| x in small;
      SetSizeBound(small - {x}, large - {x});
    }
  }

  // The sets hold just what the derivation has found, all of it left-hand names.
  ghost predicate Reached(env: Env, pairs: seq<Pair>, found: seq<Fact>, tainted: set<string>, headers: set<string>) {
    && Derivation(env, pairs, found) && tainted == TaintedNames(found) && headers == Headers(found)
    && tainted <= Names(pairs) && headers <= Names(pairs)
  }

  // Recording a fact that follows from what is known keeps the sets in step with the derivation.
  lemma Learn(env: Env, pairs: seq<Pair>, found: seq<Fact>, tainted: set<string>, headers: set<string>, p: Pair, f: Fact)
    requires Reached(env, pairs, found, tainted, headers) && p in pairs && Follows(env, p, found, f)
    ensures f.HeaderVar? ==> Reached(env, pairs, found + [f], tainted, headers + {p.lhs})
    ensures f.TaintedVar? ==> Reached(env, pairs, found + [f], tainted + {p.lhs}, headers)
  {
    ExtendDerivation(env, pairs, found, p, f);
    assert p.lhs in Names(pairs);
  }

  datatype Sets = Sets(tainted: set<string>, headers: set<string>)

  // What one statement, one pass, and n passes from nothing make of the two sets.
  ghost function Visited(env: Env, p: Pair, s: Sets): Sets {
    var h := if IsHeaderContainer(p.rhs, s.headers) then s.headers + {p.lhs} else s.headers;
    Sets(if Tainted(env, p.rhs, s.tainted, h) then s.tainted + {p.lhs} else s.tainted, h)
  }

  ghost function PassOver(env: Env, pairs: seq<Pair>, s: Sets): Sets {
    if pairs == [] then s else Visited(env, pairs[|pairs| - 1], PassOver(env, pairs[..|pairs| - 1], s))
  }

  ghost function After(env: Env, pairs: seq<Pair>, n: nat): Sets {
    if n == 0 then Sets({}, {}) else PassOver(env, pairs, After(env, pairs, n - 1))
  }

  // The passes the loop makes: up to and including the first that changes nothing.
  ghost predicate IsPassCount(env: Env, pairs: seq<Pair>, n: nat) {
    && n > 0 && After(env, pairs, n) == After(env, pairs, n - 1)
    && forall m :: 0 < m < n ==> After(env, pairs, m) != After(env, pairs, m - 1)
  }

  // The body of the inner loop, for one statement.
  method Visit(env: Env, pairs: seq<Pair>, p: Pair, tainted0: set<string>, headers0: set<string>, ghost found0: seq<Fact>)
    returns (tainted: set<string>, headers: set<string>, changed: bool, ghost found: seq<Fact>)
    requires Reached(env, pairs, found0, tainted0, headers0) && p in pairs
    ensures Reached(env, pairs, found, tainted, headers)
    ensures if changed then |tainted| + |headers| > |tainted0| + |headers0|
            else tainted == tainted0 && headers == headers0 && PairClosed(env, p, tainted, headers)
    ensures Sets(tainted, headers) == Visited(env, p, Sets(tainted0, headers0))
  {
    headers, changed, found := headers0, false, found0;
    assert p.lhs in headers0 ==> headers0 + {p.lhs} == headers0;
    if IsHeaderContainer(p.rhs, headers) && p.lhs !in headers {
      Learn(env, pairs, found, tainted0, headers, p, HeaderVar(p.lhs));
      found := found + [HeaderVar(p.lhs)];
      headers := headers + {p.lhs};
      changed := true;
      assert |headers| == |headers0| + 1;
    }
    var hit;
    tainted, hit, found := VisitTaint(env, pairs, p, tainted0, headers, found);
    changed := changed || hit;
    PairClosedIs(env, p, tainted, headers);
  }

  // Its second half.
  method VisitTaint(env: Env, pairs: seq<Pair>, p: Pair, tainted0: set<string>, headers: set<string>, ghost found0: seq<Fact>)
    returns (tainted: set<string>, changed: bool, ghost found: seq<Fact>)
    requires Reached(env, pairs, found0, tainted0, headers) && p in pairs
    ensures Reached(env, pairs, found, tainted, headers)
    ensures if changed then |tainted| == |tainted0| + 1
            else tainted == tainted0 && (Tainted(env, p.rhs, tainted, headers) ==> p.lhs in tainted)
    ensures tainted == if Tainted(env, p.rhs, tainted0, headers) then tainted0 + {p.lhs} else tainted0
  {
    tainted, changed, found := tainted0, false, found0;
    assert p.lhs in tainted0 ==> tainted0 + {p.lhs} == tainted0;
    if p.lhs !in tainted {
      changed := IsExprTainted(env, p.rhs, tainted, headers);
      if changed {
        Learn(env, pairs, found, tainted, headers, p, TaintedVar(p.lhs));
        found := found + [TaintedVar(p.lhs)];
        tainted := tainted + {p.lhs};
      }
    }
  }

  ghost predicate ClosedUpTo(env: Env, pairs: seq<Pair>, k: nat, tainted: set<string>, headers: set<string>)
    requires k <= |pairs|
  {
    forall i :: 0 <= i < k ==> PairClosed(env, pairs[i], tainted, headers)
  }

  // One run of the inner loop over the statements.
  method Pass(env: Env, pairs: seq<Pair>, tainted0: set<string>, headers0: set<string>, ghost found0: seq<Fact>)
    returns (tainted: set<string>, headers: set<string>, changed: bool, ghost found: seq<Fact>)
    requires Reached(env, pairs, found0, tainted0, headers0)
    ensures Reached(env, pairs, found, tainted, headers)
    ensures |tainted| + |headers| >= |tainted0| + |headers0| + (if changed then 1 else 0)
    ensures !changed ==> Closed(env, pairs, tainted, headers) && tainted == tainted0 && headers == headers0
    ensures Sets(tainted, headers) == PassOver(env, pairs, Sets(tainted0, headers0))
  {
    tainted, headers, changed, found := tainted0, headers0, false, found0;
    for k := 0 to |pairs|
      invariant Sets(tainted, headers) == PassOver(env, pairs[..k], Sets(tainted0, headers0))
      invariant !changed ==> tainted == tainted0 && headers == headers0
      invariant Reached(env, pairs, found, tainted, headers)
      invariant |tainted| + |headers| >= |tainted0| + |headers0| + (if changed then 1 else 0)
      invariant !changed ==> ClosedUpTo(env, pairs, k, tainted, headers)
    {
      var grown;
      tainted, headers, grown, found := Visit(env, pairs, pairs[k], tainted, headers, found);
      changed := changed || grown;
      PassOverNext(env, pairs, k, Sets(tainted0, headers0));
    }
    assert pairs[..|pairs|] == pairs;
  }

  lemma PassOverNext(env: Env, pairs: seq<Pair>, k: nat, s: Sets)
    requires k < |pairs|
    ensures PassOver(env, pairs[..k + 1], s) == Visited(env, pairs[k], PassOver(env, pairs[..k], s))
  {
    assert pairs[..k + 1][..k] == pairs[..k];
  }

  /** Iterates to the least closed sets in at most 2 * |distinct left-hand names| + 1 passes; the
      order in which names were added is itself a derivation of the result. */
  method Propagate(env: Env, pairs: seq<Pair>)
    returns (tainted: set<string>, headers: set<string>, passes: nat)
    ensures IsLeastClosed(env, pairs, tainted, headers)
    ensures forall x :: x in tainted <==> Derivable(env, pairs, TaintedVar(x))
    ensures forall x :: x in headers <==> Derivable(env, pairs, HeaderVar(x))
    ensures passes <= 2 * |Names(pairs)| + 1 && IsPassCount(env, pairs, passes)
  {
    tainted, headers, passes := {}, {}, 0;
    ghost var found := [];
    var changed := true;
    while changed
      invariant Reached(env, pairs, found, tainted, headers)
      invariant passes <= |tainted| + |headers| + (if changed then 0 else 1)
      invariant !changed ==> Closed(env, pairs, tainted, headers)
      invariant Sets(tainted, headers) == After(env, pairs, passes)
      invariant forall m :: 0 < m <= passes && (changed || m < passes) ==> After(env, pairs, m) != After(env, pairs, m - 1)
      invariant !changed ==> passes > 0 && After(env, pairs, passes) == After(env, pairs, passes - 1)
      decreases 2 * |Names(pairs)| - |tainted| - |headers| + (if changed then 1 else 0)
    {
      tainted, headers, changed, found := Pass(env, pairs, tainted, headers, found);
      passes := passes + 1;
      SetSizeBound(tainted, Names(pairs));
      SetSizeBound(headers, Names(pairs));
    }
    SetSizeBound(tainted, Names(pairs));
    SetSizeBound(headers, Names(pairs));
    ClosedDerivationIsLeast(env, pairs, found);
    assert forall x :: x in tainted <==> TaintedVar(x) in found;
    assert forall x :: x in headers <==> HeaderVar(x) in found;
  }

  // ---------------------------------------------------------------------------------------------
  // The final inspection of strings.HasPrefix and strings.HasSuffix calls.

  predicate IsStringsCall(e: Expr) {
    && e.Call? && e.fun.Selector? && e.fun.x == Ident("strings")
    && (e.fun.sel == "HasPrefix" || e.fun.sel == "HasSuffix") && |e.args| >= 2
  }

  function SuffixText(env: Env, e: Expr): string {
    var value := ResolveConst(env, e);
    if value == "" then env.text(e) else value
  }

  ghost predicate Unsafe(env: Env, e: Expr, tainted: set<string>, headers: set<string>) {
    && IsStringsCall(e) && Tainted(env, e.args[0], tainted, headers)
    && (e.fun.sel == "HasPrefix" ||
        (var suffix := SuffixText(env, e.args[1]);
         Contains(suffix, ".local") || Contains(suffix, ".lan") || Contains(suffix, ".home")))
  }

  // The positions of the unsafe calls, for given sets.
  method FindUnsafe(env: Env, nodes: seq<Expr>, tainted: set<string>, headers: set<string>) returns (unsafe: seq<int>)
    ensures forall k :: k in unsafe <==> 0 <= k < |nodes| && Unsafe(env, nodes[k], tainted, headers)
  {
    unsafe := [];
    for k := 0 to |nodes|
      invariant forall i :: i in unsafe <==> 0 <= i < k && Unsafe(env, nodes[i], tainted, headers)
    {
      var bad := IsUnsafe(env, nodes[k], tainted, headers);
      if bad {
        unsafe := unsafe + [k];
      }
    }
  }

  method IsUnsafe(env: Env, e: Expr, tainted: set<string>, headers: set<string>) returns (bad: bool)
    ensures bad == Unsafe(env, e, tainted, headers)
  {
    bad := false;
    if IsStringsCall(e) {
      var dirty := IsExprTainted(env, e.args[0], tainted, headers);
      if dirty {
        if e.fun.sel == "HasPrefix" {
          return true;
        }
        var suffix := SuffixText(env, e.args[1]);
        bad := Contains(suffix, ".local") || Contains(suffix, ".lan") || Contains(suffix, ".home");
      }
    }
  }

  // What a report on a body should be: a node is in it if and only if it is an unsafe call for the least
  // sets closed under the body's assignments.
  ghost predicate Reports(env: Env, body: seq<Stmt>, unsafe: seq<int>, pairs: seq<Pair>, t: set<string>, h: set<string>) {
    && (forall p :: p in pairs <==> BoundIn(body, p))
    && IsLeastClosed(env, pairs, t, h)
    && forall k :: k in unsafe <==> 0 <= k < |BodyNodes(body)| && Unsafe(env, BodyNodes(body)[k], t, h)
  }

  /** One function body: collect, propagate, then report the positions of the unsafe calls among its nodes. */
  method AnalyzeFunction(env: Env, body: seq<Stmt>)
    returns (unsafe: seq<int>, pairs: seq<Pair>, tainted: set<string>, headers: set<string>)
    ensures Reports(env, body, unsafe, pairs, tainted, headers)
  {
    pairs := CollectStatements(body);
    var passes;
    tainted, headers, passes := Propagate(env, pairs);
    unsafe := FindUnsafe(env, BodyNodes(body), tainted, headers);
  }

  ghost predicate Reported(body: seq<Stmt>, unsafe: seq<int>, e: Expr) {
    exists k :: k in unsafe && 0 <= k < |BodyNodes(body)| && BodyNodes(body)[k] == e
  }

  /** Two bodies of the same statements, in any order, get the same calls reported. */
  lemma ReportIgnoresOrder(env: Env, body: seq<Stmt>, body': seq<Stmt>, unsafe: seq<int>, unsafe': seq<int>,
                           pairs: seq<Pair>, pairs': seq<Pair>,
                           t: set<string>, h: set<string>, t': set<string>, h': set<string>, e: Expr)
    requires forall s :: s in body <==> s in body'
    requires Reports(env, body, unsafe, pairs, t, h) && Reports(env, body', unsafe', pairs', t', h')
    ensures Reported(body, unsafe, e) <==> Reported(body', unsafe', e)
  {
    assert forall p :: BoundIn(body, p) <==> BoundIn(body', p);
    OrderIndependent(env, pairs, pairs', t, h, t', h');
    BodyNodesAre(body, e);
    BodyNodesAre(body', e);
    ReportedAre(env, body, unsafe, pairs, t, h, e);
    ReportedAre(env, body', unsafe', pairs', t', h', e);
  }

  lemma ReportedAre(env: Env, body: seq<Stmt>, unsafe: seq<int>, pairs: seq<Pair>, t: set<string>, h: set<string>, e: Expr)
    requires Reports(env, body, unsafe, pairs, t, h)
    ensures Reported(body, unsafe, e) <==> e in BodyNodes(body) && Unsafe(env, e, t, h)
  {
    if e in BodyNodes(body) && Unsafe(env, e, t, h) {
      var k :| 0 <= k < |BodyNodes(body)| && BodyNodes(body)[k] == e;
      assert k in unsafe;
    }
  }
}

/** What the predicates of the taint analyser say about the source text: which strings, which expressions
    and which calls, from the report of a whole body down to single characters. */
module TaintMeaning {
  import opened TaintWorklist

  // ---------------------------------------------------------------------------------------------
  // Strings.

  lemma ContainsMeans(s: string, part: string)
    ensures Contains(s, part) <==> exists before, after :: s == before + part + after
  {
    if Contains(s, part) {
      var i :| 0 <= i <= |s| && part <= s[i..];
      assert s == s[..i] + part + s[i + |part|..];
    }
    if before, after :| s == before + part + after {
      assert s[|before|..] == part + after;
    }
  }

  lemma HasSuffixMeans(s: string, suffix: string)
    ensures HasSuffix(s, suffix) <==> exists before :: s == before + suffix
  {
    if HasSuffix(s, suffix) {
      assert s == s[..|s| - |suffix|] + suffix;
    }
  }

  /** Lower changes the 26 capitals to the letters 32 places on, and nothing else. */
  lemma LowerMeans(s: string)
    ensures |Lower(s)| == |s|
    ensures forall i :: 0 <= i < |s| ==> Lower(s)[i] == if 65 <= s[i] as int <= 90 then (s[i] as int + 32) as char else s[i]
  {}

  predicate Quotes(s: string) { forall i :: 0 <= i < |s| ==> s[i] in {'"', '`', '\''} }

  /** Trimming takes quotation marks, of three kinds, from both ends until neither end is one. */
  lemma {:induction false} TrimQuotesMeans(s: string) returns (before: string, after: string)
    ensures s == before + TrimQuotes(s) + after && Quotes(before) && Quotes(after)
    ensures
      var t := TrimQuotes(s);
      t == [] || (t[0] !in {'"', '`', '\''} && t[|t| - 1] !in {'"', '`', '\''})
  {
    TrimmedEnds(s);
    before, after := Trimmed(s);
  }

  lemma {:induction false} TrimmedEnds(s: string)
    ensures
      var t := TrimQuotes(s);
      t == [] || (t[0] !in {'"', '`', '\''} && t[|t| - 1] !in {'"', '`', '\''})
    decreases |s|
  {
    if s != [] && IsQuote(s[0]) {
      TrimmedEnds(s[1..]);
    } else if s != [] && IsQuote(s[|s| - 1]) {
      TrimmedEnds(s[..|s| - 1]);
    }
  }

  lemma {:induction false} Trimmed(s: string) returns (before: string, after: string)
    ensures s == before + TrimQuotes(s) + after && Quotes(before) && Quotes(after)
    decreases |s|
  {
    if s != [] && IsQuote(s[0]) {
      before, after := Trimmed(s[1..]);
      Front(s, before, TrimQuotes(s), after);
      before := [s[0]] + before;
    } else if s != [] && IsQuote(s[|s| - 1]) {
      before, after := Trimmed(s[..|s| - 1]);
      Back(s, before, TrimQuotes(s), after);
      after := after + [s[|s| - 1]];
    } else {
      before, after := "", "";
    }
  }

  lemma Front(s: string, before: string, t: string, after: string)
    requires s != [] && s[1..] == before + t + after
    ensures s == ([s[0]] + before) + t + after
  {}

  lemma Back(s: string, before: string, t: string, after: string)
    requires s != [] && s[..|s| - 1] == before + t + after
    ensures s == before + t + (after + [s[|s| - 1]])
  {}

  // What a literal or the constant of this name stands for: its text without quotation marks, lower-cased.
  lemma ResolveConstMeans(env: Env, e: Expr)
    ensures forall s :: e == StringLit(s) ==> ResolveConst(env, e) == Lower(TrimQuotes(s))
    ensures forall x :: e == Ident(x) && x in env.consts ==> ResolveConst(env, e) == Lower(TrimQuotes(env.consts[x]))
    ensures forall x :: e == Ident(x) && x !in env.consts ==> ResolveConst(env, e) == ""
    ensures !e.StringLit? && !e.Ident? ==> ResolveConst(env, e) == ""
  {}

  // base.names[0].names[1]...
  function Chain(base: Expr, names: seq<string>): Expr {
    if names == [] then base else Selector(Chain(base, names[..|names| - 1]), names[|names| - 1])
  }

  function Dotted(names: seq<string>): string {
    if names == [] then "" else Dotted(names[..|names| - 1]) + "." + names[|names| - 1]
  }

  /** The receiver name is the dotted path down to its root, which counts only if it is an identifier. */
  lemma {:induction false} RootReceiverNameMeans(base: Expr, names: seq<string>)
    requires !base.Selector?
    ensures RootReceiverName(Chain(base, names)) == (if base.Ident? then base.name else "") + Dotted(names)
  {
    if names != [] {
      RootReceiverNameMeans(base, names[..|names| - 1]);
    }
  }

  // ---------------------------------------------------------------------------------------------
  // Nodes.

  // n is e or a part of it.
  ghost predicate Occurs(n: Expr, e: Expr)
    decreases e
  {
    || n == e
    || match e
       case Selector(x, sel) => Occurs(n, x) || n == Ident(sel)
       case Call(fun, args) => Occurs(n, fun) || exists i :: 0 <= i < |args| && Occurs(n, args[i])
       case Index(base, index) => Occurs(n, base) || Occurs(n, index)
       case Other(children) => exists i :: 0 <= i < |children| && Occurs(n, children[i])
       case _ => false
  }

  /** The traversal visits exactly the parts of an expression. */
  lemma {:induction false} SubNodesOccur(n: Expr, e: Expr)
    ensures n in SubNodes(e) <==> Occurs(n, e)
    decreases e, 0
  {
    match e
    case Selector(x, sel) => SubNodesOccur(n, x);
    case Call(fun, args) =>
      SubNodesOccur(n, fun);
      SubNodesAllOccur(n, args);
    case Index(base, index) =>
      SubNodesOccur(n, base);
      SubNodesOccur(n, index);
    case Other(children) => SubNodesAllOccur(n, children);
    case _ =>
  }

  lemma {:induction false} SubNodesAllOccur(n: Expr, es: seq<Expr>)
    ensures n in SubNodesAll(es) <==> exists i :: 0 <= i < |es| && Occurs(n, es[i])
    decreases es, 1
  {
    if es != [] {
      SubNodesOccur(n, es[0]);
      SubNodesAllOccur(n, es[1..]);
      assert forall i :: 0 < i < |es| ==> es[i] == es[1..][i - 1];
    }
  }

  /** And exactly those of the expressions of a statement. */
  lemma StmtNodesOccur(n: Expr, s: Stmt)
    ensures n in StmtNodes(s) <==>
      match s
      case Assign(lhs, rhs) =>
        (exists i :: 0 <= i < |lhs| && Occurs(n, lhs[i])) || (exists i :: 0 <= i < |rhs| && Occurs(n, rhs[i]))
      case VarDecl(names, values) =>
        (exists i :: 0 <= i < |names| && n == Ident(names[i])) || (exists i :: 0 <= i < |values| && Occurs(n, values[i]))
      case Plain(exprs) => exists i :: 0 <= i < |exprs| && Occurs(n, exprs[i])
  {
    match s
    case Assign(lhs, rhs) =>
      SubNodesAllOccur(n, lhs);
      SubNodesAllOccur(n, rhs);
    case VarDecl(names, values) =>
      SubNodesAllOccur(n, values);
      var idents := seq(|names|, i requires 0 <= i < |names| => Ident(names[i]));
      if i :| 0 <= i < |names| && n == Ident(names[i]) {
        assert idents[i] == n;
      }
    case Plain(exprs) => SubNodesAllOccur(n, exprs);
  }

  // ---------------------------------------------------------------------------------------------
  // Sources of taint.

  /** A receiver is one of a header if and only if its lower-cased name contains "header", ends in ".h", or
      is a known header variable. */
  lemma HeaderReceiverMeans(e: Expr, headers: set<string>)
    ensures IsHeaderReceiver(e, headers) <==>
      var name := Lower(RootReceiverName(e));
      || (exists before, after :: name == before + "header" + after)
      || (exists before :: name == before + ".h")
      || name in headers
  {
    ContainsMeans(Lower(RootReceiverName(e)), "header");
    HasSuffixMeans(Lower(RootReceiverName(e)), ".h");
  }

  /** A variable holds a header if it is known to; any other expression if its lower-cased name contains
      "header". */
  lemma HeaderContainerMeans(e: Expr, headers: set<string>)
    ensures forall x :: e == Ident(x) ==> (IsHeaderContainer(e, headers) <==> x in headers)
    ensures !e.Ident? ==>
      (IsHeaderContainer(e, headers) <==>
       exists before, after :: Lower(RootReceiverName(e)) == before + "header" + after)
  {
    var name := Lower(RootReceiverName(e));
    ContainsMeans(name, "header");
    EndsContain(name);
  }

  lemma EndsContain(name: string)
    ensures HasSuffix(name, ".header") || HasSuffix(name, ".header()") ==> Contains(name, "header")
  {
    if HasSuffix(name, ".header") {
      var i := |name| - 7;
      assert name[i + 1..] == name[i..][1..] == "header";
      ContainsAt(name, i + 1, "header");
    }
    if HasSuffix(name, ".header()") {
      var i := |name| - 9;
      assert name[i + 1..] == name[i..][1..] == "header()";
      assert "header()"[..6] == "header";
      ContainsAt(name, i + 1, "header");
    }
  }

  lemma ContainsAt(s: string, i: nat, part: string)
    requires i <= |s| && part <= s[i..]
    ensures Contains(s, part)
  {}

  /** A node gives taint away if and only if it is a tainted name or the name "origin", in capitals or not, or
      Get("Origin") with one argument on a header, or ["Origin"] on one. */
  lemma HitMeans(env: Env, n: Expr, t: set<string>, h: set<string>)
    ensures Hit(env, n, t, h) <==>
      || (exists x :: n == Ident(x) && (x in t || Lower(x) == "origin"))
      || (exists r, a :: n == Call(Selector(r, "Get"), [a]) && IsHeaderReceiver(r, h) && ResolveConst(env, a) == "origin")
      || (exists r, a :: n == Index(r, a) && IsHeaderReceiver(r, h) && ResolveConst(env, a) == "origin")
  {
    if n.Call? && Hit(env, n, t, h) {
      assert n == Call(Selector(n.fun.x, "Get"), [n.args[0]]);
    }
    if n.Index? && Hit(env, n, t, h) {
      assert n == Index(n.base, n.index);
    }
  }

  /** An expression that is no identifier is tainted if and only if its lower-cased text is origin, ends in
      .origin or contains header.get("origin"), or some part of it gives taint away. */
  lemma TaintedMeans(env: Env, e: Expr, t: set<string>, h: set<string>)
    ensures e.Ident? ==> (Tainted(env, e, t, h) <==> Hit(env, e, t, h))
    ensures !e.Ident? ==>
      (Tainted(env, e, t, h) <==>
       || env.text(e) == "origin"
       || (exists before :: env.text(e) == before + ".origin")
       || (exists before, after :: env.text(e) == before + "header.get(\"origin\")" + after)
       || (exists n :: Occurs(n, e) && Hit(env, n, t, h)))
  {
    HasSuffixMeans(env.text(e), ".origin");
    ContainsMeans(env.text(e), "header.get(\"origin\")");
    forall n
      ensures n in SubNodes(e) <==> Occurs(n, e)
    {
      SubNodesOccur(n, e);
    }
  }

  // ---------------------------------------------------------------------------------------------
  // The report.

  // The value a suffix is tested for: that of a literal or constant, else its text.
  lemma SuffixTextMeans(env: Env, e: Expr)
    ensures ResolveConst(env, e) != "" ==> SuffixText(env, e) == ResolveConst(env, e)
    ensures ResolveConst(env, e) == "" ==> SuffixText(env, e) == env.text(e)
  {}

  // The suffix contains the name of a local domain.
  ghost predicate LocalDomain(s: string) {
    || (exists before, after :: s == before + ".local" + after)
    || (exists before, after :: s == before + ".lan" + after)
    || (exists before, after :: s == before + ".home" + after)
  }

  lemma LocalDomainIs(s: string)
    ensures LocalDomain(s) <==> Contains(s, ".local") || Contains(s, ".lan") || Contains(s, ".home")
  {
    ContainsMeans(s, ".local");
    ContainsMeans(s, ".lan");
    ContainsMeans(s, ".home");
  }

  /** Of the nodes of a body, exactly these are reported: every strings.HasPrefix of a tainted value, whatever
      the prefix, and every strings.HasSuffix of a tainted value whose suffix names a local domain. */
  lemma ReportMeans(env: Env, body: seq<Stmt>, unsafe: seq<int>, pairs: seq<Pair>, t: set<string>, h: set<string>, k: int)
    requires Reports(env, body, unsafe, pairs, t, h) && 0 <= k < |BodyNodes(body)|
    ensures k in unsafe <==>
      || (exists args: seq<Expr> :: BodyNodes(body)[k] == Call(Selector(Ident("strings"), "HasPrefix"), args)
                                    && |args| >= 2 && Tainted(env, args[0], t, h))
      || (exists args: seq<Expr> :: BodyNodes(body)[k] == Call(Selector(Ident("strings"), "HasSuffix"), args)
                                    && |args| >= 2 && Tainted(env, args[0], t, h)
                                    && LocalDomain(SuffixText(env, args[1])))
  {
    var e := BodyNodes(body)[k];
    if IsStringsCall(e) {
      LocalDomainIs(SuffixText(env, e.args[1]));
      assert e == Call(Selector(Ident("strings"), e.fun.sel), e.args);
    }
  }

  // o := r.Header.Get("Origin"); strings.<test>(o, <literal>)
  function Read(): Expr {
    Call(Selector(Selector(Ident("r"), "Header"), "Get"), [StringLit("\"Origin\"")])
  }

  function Test(test: string, literal: string): Expr {
    Call(Selector(Ident("strings"), test), [Ident("o"), StringLit(literal)])
  }

  function Body(test: string, literal: string): seq<Stmt> {
    [Assign([Ident("o")], [Read()]), Plain([Test(test, literal)])]
  }

  /** A program from body to report: the prefix test is reported, whatever the prefix; the suffix test exactly
      if its literal names a local domain; any other test of the value is not, and nothing else is. */
  method ReportOnTest(env: Env, test: string, literal: string) returns (unsafe: seq<int>)
    requires Lower(TrimQuotes(literal)) != ""
    ensures
      var nodes := BodyNodes(Body(test, literal));
      && Test(test, literal) in nodes
      && forall k :: k in unsafe <==> 0 <= k < |nodes| && IsReported(test, literal, nodes[k])
  {
    var pairs, t, h;
    unsafe, pairs, t, h := AnalyzeFunction(env, Body(test, literal));
    OriginIsTainted(env, test, literal, pairs, t, h);
    TestOccurs(test, literal);
    forall k: int
      ensures k in unsafe <==> 0 <= k < |BodyNodes(Body(test, literal))| && IsReported(test, literal, BodyNodes(Body(test, literal))[k])
    {
      if 0 <= k < |BodyNodes(Body(test, literal))| {
        ReportOn(env, test, literal, unsafe, pairs, t, h, k);
      }
    }
  }

  ghost predicate IsReported(test: string, literal: string, n: Expr) {
    n == Test(test, literal) && (test == "HasPrefix" || (test == "HasSuffix" && LocalDomain(Lower(TrimQuotes(literal)))))
  }

  lemma ReportOn(env: Env, test: string, literal: string, unsafe: seq<int>, pairs: seq<Pair>, t: set<string>, h: set<string>, k: int)
    requires Reports(env, Body(test, literal), unsafe, pairs, t, h) && 0 <= k < |BodyNodes(Body(test, literal))|
    requires "o" in t && Lower(TrimQuotes(literal)) != ""
    ensures k in unsafe <==> IsReported(test, literal, BodyNodes(Body(test, literal))[k])
  {
    var n := BodyNodes(Body(test, literal))[k];
    ReportMeans(env, Body(test, literal), unsafe, pairs, t, h, k);
    var args := [Ident("o"), StringLit(literal)];
    assert Tainted(env, args[0], t, h) && SuffixText(env, args[1]) == Lower(TrimQuotes(literal));
    if n.Call? && |n.args| >= 2 {
      OnlyTest(test, literal, n);
    }
    assert n == Test(test, literal) ==> n == Call(Selector(Ident("strings"), test), args);
  }

  lemma OriginLiteral(env: Env)
    ensures ResolveConst(env, StringLit("\"Origin\"")) == "origin"
  {
    assert TrimQuotes("Origin\"") == TrimQuotes("Origin") == "Origin";
    assert "\"Origin\""[1..] == "Origin\"" && "Origin\""[..6] == "Origin";
    assert TrimQuotes("\"Origin\"") == TrimQuotes("\"Origin\""[1..]);
    assert Lower("Origin") == "origin";
  }

  lemma ReadIsTainted(env: Env, t: set<string>, h: set<string>)
    ensures Tainted(env, Read(), t, h)
  {
    var header := Selector(Ident("r"), "Header");
    OriginLiteral(env);
    assert RootReceiverName(header) == "r.Header" && Lower("r.Header") == "r." + "header" + "";
    HeaderReceiverMeans(header, h);
    HitMeans(env, Read(), t, h);
    assert Read() in SubNodes(Read());
  }

  lemma OriginIsTainted(env: Env, test: string, literal: string, pairs: seq<Pair>, t: set<string>, h: set<string>)
    requires forall p :: p in pairs <==> BoundIn(Body(test, literal), p)
    requires IsLeastClosed(env, pairs, t, h)
    ensures "o" in t
  {
    ReadIsTainted(env, t, h);
    var s := Assign([Ident("o")], [Read()]);
    assert s in Body(test, literal) && s.lhs[0] == Ident("o") && s.rhs[0] == Read();
    assert Binds(s, Pair("o", Read()));
    PairClosedIs(env, Pair("o", Read()), t, h);
    assert PairClosed(env, Pair("o", Read()), t, h);
  }

  lemma TestOccurs(test: string, literal: string)
    ensures Test(test, literal) in BodyNodes(Body(test, literal))
  {
    BodyNodesAre(Body(test, literal), Test(test, literal));
    var s := Plain([Test(test, literal)]);
    assert s in Body(test, literal);
    StmtNodesOccur(Test(test, literal), s);
    assert Occurs(Test(test, literal), s.exprs[0]);
  }

  // No other node of the body is a call with two arguments.
  lemma OnlyTest(test: string, literal: string, n: Expr)
    requires n in BodyNodes(Body(test, literal)) && n.Call? && |n.args| >= 2
    ensures n == Test(test, literal)
  {
    BodyNodesAre(Body(test, literal), n);
    var s :| s in Body(test, literal) && n in StmtNodes(s);
    StmtNodesOccur(n, s);
    ReadHasOneCall(n);
    TestHasOneCall(test, literal, n);
  }

  lemma ReadHasOneCall(n: Expr)
    requires n.Call?
    ensures Occurs(n, Read()) ==> n == Read()
    ensures !Occurs(n, Ident("o"))
  {
    var lit := StringLit("\"Origin\"");
    assert !Occurs(n, lit) && !Occurs(n, Ident("r"));
    assert forall i :: 0 <= i < |Read().args| ==> Read().args[i] == lit;
  }

  lemma TestHasOneCall(test: string, literal: string, n: Expr)
    requires n.Call?
    ensures Occurs(n, Test(test, literal)) ==> n == Test(test, literal)
  {
    var args := Test(test, literal).args;
    assert !Occurs(n, Ident("strings")) && !Occurs(n, Selector(Ident("strings"), test));
    assert !Occurs(n, Ident("o")) && !Occurs(n, StringLit(literal));
    assert forall i :: 0 <= i < |args| ==> args[i] == Ident("o") || args[i] == StringLit(literal);
  }
}

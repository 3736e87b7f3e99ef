/** What the taint rules of tools/dev_scripts/ast_analyzer.go find and miss, exactly, and how many passes
    their loop can need. */
module TaintLimits {
  import opened TaintWorklist

  // ---------------------------------------------------------------------------------------------
  // Header variables as receivers.

  predicate NoCapitals(x: string) { forall i :: 0 <= i < |x| ==> !('A' <= x[i] <= 'Z') }

  lemma LowerUnchanged(x: string)
    ensures Lower(x) == x <==> NoCapitals(x)
  {
    if !NoCapitals(x) {
      var i :| 0 <= i < |x| && 'A' <= x[i] <= 'Z';
      assert Lower(x)[i] != x[i];
    }
  }

  // A header variable of this name is known again when it is a receiver.
  predicate KnownAsReceiver(x: string) {
    NoCapitals(x) || Contains(Lower(x), "header") || HasSuffix(Lower(x), ".h")
  }

  /** A header variable is recognised as a receiver, in every set that holds its name, if and only if the
      name has no capitals, or contains "header", or ends in ".h": the receiver is lower-cased before it is
      looked up, the names in the set are not. */
  lemma ReceiverRecognised(x: string)
    ensures (forall hs {:trigger x in hs} :: x in hs ==> IsHeaderReceiver(Ident(x), hs)) <==> KnownAsReceiver(x)
  {
    KnownToItself(x);
    LowerUnchanged(x);
    assert x in {x};
  }

  lemma KnownToItself(x: string)
    ensures IsHeaderReceiver(Ident(x), {x}) <==> KnownAsReceiver(x)
  {
    LowerUnchanged(x);
    assert RootReceiverName(Ident(x)) == x;
  }

  // r.Header, x.Get("Origin") and x["Origin"]
  function HeaderOf(): Expr { Selector(Ident("r"), "Header") }
  function GetFrom(x: string): Expr { Call(Selector(Ident(x), "Get"), [StringLit("\"Origin\"")]) }
  function IndexFrom(x: string): Expr { Index(Ident(x), StringLit("\"Origin\"")) }

  predicate Reads(e: Expr, x: string) { e == GetFrom(x) || e == IndexFrom(x) }

  lemma Literals(env: Env)
    ensures ResolveConst(env, StringLit("\"Origin\"")) == "origin"
    ensures Lower("r.Header") == "r.header" && HasSuffix("r.header", ".header")
    ensures Lower("r") == "r" && Lower("Header") == "header" && Lower("Get") == "get"
  {
    assert TrimQuotes("Origin\"") == TrimQuotes("Origin") == "Origin";
    assert TrimQuotes("\"Origin\"") == TrimQuotes("\"Origin\""[1..]);
    assert "\"Origin\""[1..] == "Origin\"";
    assert "Origin\""[..6] == "Origin";
    assert Lower("Origin") == "origin";
  }

  lemma HeaderRule(env: Env, t: set<string>, h: set<string>)
    ensures IsHeaderContainer(HeaderOf(), h)
    ensures !TextHit(env, HeaderOf()) && "r" !in t && "Header" !in t ==> !Tainted(env, HeaderOf(), t, h)
  {
    Literals(env);
    assert RootReceiverName(HeaderOf()) == "r.Header";
    assert SubNodes(HeaderOf()) == [HeaderOf(), Ident("r"), Ident("Header")];
  }

  lemma ReadHit(env: Env, e: Expr, x: string, t: set<string>, h: set<string>)
    requires Reads(e, x)
    ensures Hit(env, e, t, h) <==> IsHeaderReceiver(Ident(x), h)
    ensures !IsHeaderContainer(e, h)
  {
    Literals(env);
  }

  /** A read of the Origin header from x is tainted if and only if its text gives it away, or x is a header
      receiver, or x itself is tainted. */
  lemma ReadRule(env: Env, e: Expr, x: string, t: set<string>, h: set<string>)
    requires Reads(e, x) && "Get" !in t
    ensures !IsHeaderContainer(e, h)
    ensures Tainted(env, e, t, h) <==>
            TextHit(env, e) || IsHeaderReceiver(Ident(x), h) || x in t || Lower(x) == "origin"
  {
    ReadHit(env, e, x, t, h);
    ReadNodes(e, x);
    Literals(env);
    assert !Hit(env, Ident("Get"), t, h);
    assert Hit(env, Ident(x), t, h) <==> x in t || Lower(x) == "origin";
    assert e in SubNodes(e) && Ident(x) in SubNodes(e);
  }

  lemma ReadNodes(e: Expr, x: string)
    requires Reads(e, x)
    ensures SubNodes(e) == if e == IndexFrom(x) then [e, Ident(x), StringLit("\"Origin\"")]
                           else [e, Selector(Ident(x), "Get"), Ident(x), Ident("Get"), StringLit("\"Origin\"")]
  {
    var lit, sel := StringLit("\"Origin\""), Selector(Ident(x), "Get");
    assert SubNodes(Ident(x)) == [Ident(x)] && SubNodes(lit) == [lit];
    if e == IndexFrom(x) {
      assert SubNodes(e) == [e] + (SubNodes(Ident(x)) + SubNodes(lit));
    } else {
      assert SubNodesAll([lit]) == SubNodes(lit) + SubNodesAll([]) == [lit];
      assert SubNodes(sel) == [sel] + (SubNodes(Ident(x)) + [Ident("Get")]);
      assert SubNodes(e) == [e] + (SubNodes(sel) + SubNodesAll([lit]));
    }
  }

  // x := r.Header; o := a read from x
  function Program(x: string, e: Expr): seq<Pair> { [Pair(x, HeaderOf()), Pair("o", e)] }

  /** A header read through a variable, by Get or by index, is found if and only if the variable's name is
      one of those; a name that gives the read away by its text is. */
  lemma ReadThroughVariable(env: Env, x: string, e: Expr, t: set<string>, h: set<string>)
    requires Reads(e, x) && IsLeastClosed(env, Program(x, e), t, h)
    requires x != "o" && Lower(x) != "origin" && !TextHit(env, HeaderOf())
    requires TextHit(env, e) ==> KnownAsReceiver(x)
    ensures h == {x} && ("o" in t <==> KnownAsReceiver(x))
  {
    var found: set<string> := if KnownAsReceiver(x) then {"o"} else {};
    var program := Program(x, e);
    KnownToItself(x);
    HeaderRule(env, found, {x});
    ReadRule(env, e, x, found, {x});
    PairClosedIs(env, program[0], found, {x});
    PairClosedIs(env, program[1], found, {x});
    assert Closed(env, program, found, {x});
    HeaderRule(env, t, h);
    PairClosedIs(env, program[0], t, h);
    PairClosedIs(env, program[1], t, h);
    assert program[0] in program && program[1] in program;
    assert PairClosed(env, program[0], t, h) && PairClosed(env, program[1], t, h);
    ReadRule(env, e, x, {}, {x});
    if KnownAsReceiver(x) {
      TaintedMonotone(env, e, {}, {x}, t, h);
    }
  }

  // ---------------------------------------------------------------------------------------------
  // Names without a partner.

  /** A name is found if and only if some statement pairs it with a right-hand side that the result makes
      tainted, or a header. */
  lemma FoundExactly(env: Env, pairs: seq<Pair>, t: set<string>, h: set<string>, x: string)
    requires IsLeastClosed(env, pairs, t, h)
    ensures x in t <==> exists p :: p in pairs && p.lhs == x && Tainted(env, p.rhs, t, h)
    ensures x in h <==> exists p :: p in pairs && p.lhs == x && IsHeaderContainer(p.rhs, h)
  {
    forall p | p in pairs
      ensures (IsHeaderContainer(p.rhs, h) ==> p.lhs in h) && (Tainted(env, p.rhs, t, h) ==> p.lhs in t)
    {
      assert PairClosed(env, p, t, h);
      PairClosedIs(env, p, t, h);
    }
    if x in t && !exists p :: p in pairs && p.lhs == x && Tainted(env, p.rhs, t, h) {
      ClosedWithout(env, pairs, t, h, t - {x}, h);
    }
    if x in h && !exists p :: p in pairs && p.lhs == x && IsHeaderContainer(p.rhs, h) {
      ClosedWithout(env, pairs, t, h, t, h - {x});
    }
  }

  lemma ClosedWithout(env: Env, pairs: seq<Pair>, t: set<string>, h: set<string>, t': set<string>, h': set<string>)
    requires Closed(env, pairs, t, h) && t' <= t && h' <= h
    requires forall p :: p in pairs && p.lhs in t - t' ==> !Tainted(env, p.rhs, t, h)
    requires forall p :: p in pairs && p.lhs in h - h' ==> !IsHeaderContainer(p.rhs, h)
    ensures Closed(env, pairs, t', h')
  {
    forall p | p in pairs
      ensures PairClosed(env, p, t', h')
    {
      assert PairClosed(env, p, t, h);
      PairClosedIs(env, p, t, h);
      PairClosedIs(env, p, t', h');
      TaintedMonotone(env, p.rhs, t', h', t, h);
    }
  }

  /** In any body, `a, b := f` with one right-hand side means no more than `a := f`: the second name gets
      nothing from f. */
  lemma SecondResultIsLost(env: Env, before: seq<Stmt>, after: seq<Stmt>, a: Expr, b: Expr, f: Expr,
                           pairs: seq<Pair>, pairs': seq<Pair>,
                           t: set<string>, h: set<string>, t': set<string>, h': set<string>)
    requires forall p :: p in pairs <==> BoundIn(before + [Assign([a, b], [f])] + after, p)
    requires forall p :: p in pairs' <==> BoundIn(before + [Assign([a], [f])] + after, p)
    requires IsLeastClosed(env, pairs, t, h) && IsLeastClosed(env, pairs', t', h')
    ensures t == t' && h == h'
  {
    var two, one := Assign([a, b], [f]), Assign([a], [f]);
    forall p
      ensures Binds(two, p) <==> Binds(one, p)
    {
      if a == Ident(p.lhs) && f == p.rhs {
        assert two.lhs[0] == Ident(p.lhs) && one.lhs[0] == Ident(p.lhs) && two.rhs[0] == p.rhs;
      }
    }
    forall p
      ensures BoundIn(before + [two] + after, p) <==> BoundIn(before + [one] + after, p)
    {
      BoundInParts(before, two, after, p);
      BoundInParts(before, one, after, p);
    }
    OrderIndependent(env, pairs, pairs', t, h, t', h');
  }

  lemma BoundInParts(before: seq<Stmt>, s: Stmt, after: seq<Stmt>, p: Pair)
    ensures BoundIn(before + [s] + after, p) <==> BoundIn(before, p) || Binds(s, p) || BoundIn(after, p)
  {
    if BoundIn(before, p) || Binds(s, p) || BoundIn(after, p) {
      var q :| (q in before || q == s || q in after) && Binds(q, p);
      assert q in before + [s] + after;
    }
  }

  // ---------------------------------------------------------------------------------------------
  // The number of passes.  n names that a header reaches one pass at a time, after which taint comes back
  // one pass at a time.

  function X(k: nat): string { seq(k + 1, _ => 'x') }

  lemma NameFacts(k: nat)
    ensures |X(k)| == k + 1 && Lower(X(k)) == X(k) && X(k) != "origin" && X(k) != "r" && X(k) != "Get" && X(k) != "Header"
    ensures forall h :: IsHeaderReceiver(Ident(X(k)), h) <==> X(k) in h
  {
    var x := X(k);
    assert Lower(x) == x && RootReceiverName(Ident(x)) == x;
    assert x[0] == 'x' && "origin"[0] != 'x' && "r"[0] != 'x' && "Get"[0] != 'x' && "Header"[0] != 'x';
    forall i | 0 <= i <= |x|
      ensures !("header" <= x[i..])
    {
      assert i < |x| ==> x[i..][0] == 'x' != "header"[0];
    }
    assert |x| >= 2 ==> x[|x| - 2..][1] == 'x' != ".h"[1];
  }

  // The names X(a), ..., X(b - 1).
  function Range(a: nat, b: nat): set<string> { set k: nat | a <= k < b :: X(k) }

  lemma InRange(k: nat, a: nat, b: nat)
    ensures X(k) in Range(a, b) <==> a <= k < b
  {
    if X(k) in Range(a, b) {
      var j: nat :| a <= j < b && X(j) == X(k);
      assert |X(j)| == j + 1 && |X(k)| == k + 1;
    }
  }

  // x0 := x1; x1 := x2; ... up to x(m-1) := xm
  function Back(m: nat): seq<Pair> { if m == 0 then [] else Back(m - 1) + [Pair(X(m - 1), Ident(X(m)))] }

  // x(n-1) := x(n-2); ... down to x(n-m) := x(n-m-1)
  function Forth(n: nat, m: nat): seq<Pair>
    requires m < n
  {
    if m == 0 then [] else Forth(n, m - 1) + [Pair(X(n - m), Ident(X(n - m - 1)))]
  }

  function Read(n: nat): Pair
    requires n > 0
  {
    Pair(X(n - 1), GetFrom(X(n - 1)))
  }

  function Slow(n: nat): seq<Pair>
    requires n > 0
  {
    Back(n - 1) + [Read(n)] + Forth(n, n - 1) + [Pair(X(0), HeaderOf())]
  }

  lemma {:induction false} PassOverConcat(env: Env, a: seq<Pair>, b: seq<Pair>, s: Sets)
    ensures PassOver(env, a + b, s) == PassOver(env, b, PassOver(env, a, s))
  {
    if b == [] {
      assert a + b == a;
    } else {
      PassOverConcat(env, a, b[..|b| - 1], s);
      assert (a + b)[..|a + b| - 1] == a + b[..|b| - 1];
    }
  }

  lemma PassOverSnoc(env: Env, a: seq<Pair>, p: Pair, s: Sets)
    ensures PassOver(env, a + [p], s) == Visited(env, p, PassOver(env, a, s))
  {
    assert (a + [p])[..|a|] == a;
  }

  // One copy x(to) := x(from).
  lemma Copied(env: Env, to: nat, from: nat, s: Sets)
    ensures Visited(env, Pair(X(to), Ident(X(from))), s) ==
            Sets(if X(from) in s.tainted then s.tainted + {X(to)} else s.tainted,
                 if X(from) in s.headers then s.headers + {X(to)} else s.headers)
  {
    NameFacts(from);
  }

  lemma Grown(a: nat, b: nat, k: nat)
    ensures a <= k < b ==> Range(a, b) + {X(k)} == Range(a, b)
    ensures a <= b == k ==> Range(a, b) + {X(k)} == Range(a, b + 1)
    ensures k + 1 == a <= b ==> Range(a, b) + {X(k)} == Range(k, b)
  {
    if a <= k < b {
      InRange(k, a, b);
    }
    if a <= b == k {
      assert forall x :: x in Range(a, b + 1) <==> x in Range(a, b) || x == X(k);
    }
    if k + 1 == a <= b {
      assert forall x :: x in Range(k, b) <==> x in Range(a, b) || x == X(k);
    }
  }

  // Headers X(0), ..., X(k - 1); taint on the last j names.
  function Stage(n: nat, k: nat, j: nat): Sets
    requires j <= n
  {
    Sets(Range(n - j, n), Range(0, k))
  }

  lemma BackStep(env: Env, n: nat, k: nat, j: nat, to: nat)
    requires to + 1 < n && k <= n && j <= n && (j > 0 ==> k == n)
    ensures Visited(env, Pair(X(to), Ident(X(to + 1))), Stage(n, k, j)) ==
            Stage(n, k, if 0 < j < n && to == n - j - 1 then j + 1 else j)
  {
    Copied(env, to, to + 1, Stage(n, k, j));
    InRange(to + 1, 0, k);
    Grown(0, k, to);
    InRange(to + 1, n - j, n);
    Grown(n - j, n, to);
  }

  // One more statement, from one value of the sets to the next.
  lemma Then(env: Env, a: seq<Pair>, p: Pair, s: Sets, mid: Sets, end: Sets)
    requires PassOver(env, a, s) == mid && Visited(env, p, mid) == end
    ensures PassOver(env, a + [p], s) == end
  {
    PassOverSnoc(env, a, p, s);
  }

  lemma BackNext(env: Env, n: nat, k: nat, j: nat, m: nat, s: Sets)
    requires 0 < m < n && k <= n && j <= n && (j > 0 ==> k == n) && PassOver(env, Back(m - 1), s) == Stage(n, k, j)
    ensures PassOver(env, Back(m), s) == Stage(n, k, if 0 < j < n && m == n - j then j + 1 else j)
  {
    var p, mid := Pair(X(m - 1), Ident(X(m))), Stage(n, k, j);
    BackStep(env, n, k, j, m - 1);
    Then(env, Back(m - 1), p, s, mid, Visited(env, p, mid));
  }

  lemma {:induction false} BackPass(env: Env, n: nat, k: nat, j: nat, m: nat)
    requires m < n && k <= n && j <= n && (j > 0 ==> k == n)
    ensures PassOver(env, Back(m), Stage(n, k, j)) == Stage(n, k, if 0 < j < n && m >= n - j then j + 1 else j)
  {
    if m > 0 {
      BackPass(env, n, k, j, m - 1);
      BackNext(env, n, k, if 0 < j < n && m - 1 >= n - j then j + 1 else j, m, Stage(n, k, j));
    }
  }

  lemma ForthStep(env: Env, n: nat, k: nat, j: nat, from: nat)
    requires from + 1 < n && k <= n && j <= n && (j > 0 ==> k == n)
    ensures Visited(env, Pair(X(from + 1), Ident(X(from))), Stage(n, k, j)) ==
            Stage(n, if from + 1 == k then k + 1 else k, j)
  {
    Copied(env, from + 1, from, Stage(n, k, j));
    InRange(from, 0, k);
    Grown(0, k, from + 1);
    InRange(from, n - j, n);
    Grown(n - j, n, from + 1);
  }

  lemma ForthNext(env: Env, n: nat, k: nat, j: nat, m: nat, s: Sets, end: nat)
    requires 0 < m < n && k <= n && j <= n && (j > 0 ==> k == n) && PassOver(env, Forth(n, m - 1), s) == Stage(n, k, j)
    requires end == if n - m == k then k + 1 else k
    ensures PassOver(env, Forth(n, m), s) == Stage(n, end, j)
  {
    var p, mid := Pair(X(n - m), Ident(X(n - m - 1))), Stage(n, k, j);
    ForthStep(env, n, k, j, n - m - 1);
    Then(env, Forth(n, m - 1), p, s, mid, Stage(n, end, j));
  }

  // How far m copies bring the headers.
  function Far(n: nat, k: nat, m: nat): nat { if 0 < k < n && n - m <= k then k + 1 else k }

  lemma {:induction false} ForthPass(env: Env, n: nat, k: nat, j: nat, m: nat)
    requires m < n && k <= n && j <= n && (j > 0 ==> k == n)
    ensures PassOver(env, Forth(n, m), Stage(n, k, j)) == Stage(n, Far(n, k, m), j)
  {
    if m > 0 {
      ForthPass(env, n, k, j, m - 1);
      ForthNext(env, n, Far(n, k, m - 1), j, m, Stage(n, k, j), Far(n, k, m));
    }
  }

  predicate Neutral(env: Env, n: nat)
    requires n > 0
  {
    !TextHit(env, HeaderOf()) && !TextHit(env, GetFrom(X(n - 1)))
  }

  lemma ReadPass(env: Env, n: nat, k: nat, j: nat)
    requires n > 0 && Neutral(env, n) && k <= n && j <= n && (j > 0 ==> k == n)
    ensures Visited(env, Read(n), Stage(n, k, j)) == Stage(n, k, if j == 0 && k == n then 1 else j)
  {
    var s := Stage(n, k, j);
    NamesOnly("Get", n - j, n);
    ReadRule(env, GetFrom(X(n - 1)), X(n - 1), s.tainted, s.headers);
    NameFacts(n - 1);
    InRange(n - 1, 0, k);
    InRange(n - 1, n - j, n);
    Grown(n - j, n, n - 1);
    assert Range(n, n) + {X(n - 1)} == Range(n - 1, n);
  }

  lemma NamesOnly(x: string, a: nat, b: nat)
    requires x == "Get" || x == "r" || x == "Header"
    ensures x !in Range(a, b)
  {
    if x in Range(a, b) {
      var k: nat :| a <= k < b && X(k) == x;
      NameFacts(k);
    }
  }

  lemma HeaderPass(env: Env, n: nat, k: nat, j: nat, end: nat)
    requires n > 0 && Neutral(env, n) && k <= n && j <= n && end == if k == 0 then 1 else k
    ensures Visited(env, Pair(X(0), HeaderOf()), Stage(n, k, j)) == Stage(n, end, j)
  {
    var s := Stage(n, k, j);
    NamesOnly("r", n - j, n);
    NamesOnly("Header", n - j, n);
    HeaderRule(env, s.tainted, s.headers);
    HeaderRule(env, s.tainted, s.headers + {X(0)});
    Grown(0, k, 0);
  }

  lemma FirstHalf(env: Env, n: nat, k: nat, j: nat)
    requires n > 0 && Neutral(env, n) && k <= n && j <= n && (j > 0 ==> k == n)
    ensures PassOver(env, Back(n - 1) + [Read(n)], Stage(n, k, j)) == Stage(n, k, if k == n && j < n then j + 1 else j)
  {
    BackPass(env, n, k, j, n - 1);
    PassOverSnoc(env, Back(n - 1), Read(n), Stage(n, k, j));
    ReadPass(env, n, k, if 0 < j < n then j + 1 else j);
  }

  lemma SecondHalf(env: Env, n: nat, k: nat, j: nat, end: nat)
    requires n > 0 && Neutral(env, n) && k <= n && j <= n && (j > 0 ==> k == n)
    requires end == if k < n then k + 1 else k
    ensures PassOver(env, Forth(n, n - 1) + [Pair(X(0), HeaderOf())], Stage(n, k, j)) == Stage(n, end, j)
  {
    var far := Far(n, k, n - 1);
    ForthPass(env, n, k, j, n - 1);
    HeaderPass(env, n, far, j, end);
    Then(env, Forth(n, n - 1), Pair(X(0), HeaderOf()), Stage(n, k, j), Stage(n, far, j), Stage(n, end, j));
  }

  // One pass: another header while there is one to come, then another tainted name.
  lemma SlowPass(env: Env, n: nat, k: nat, j: nat)
    requires n > 0 && Neutral(env, n) && k <= n && j <= n && (j > 0 ==> k == n)
    ensures PassOver(env, Slow(n), Stage(n, k, j)) ==
            if k < n then Stage(n, k + 1, j) else Stage(n, n, if j < n then j + 1 else n)
  {
    var front, rear := Back(n - 1) + [Read(n)], Forth(n, n - 1) + [Pair(X(0), HeaderOf())];
    assert Slow(n) == front + rear;
    PassOverConcat(env, front, rear, Stage(n, k, j));
    FirstHalf(env, n, k, j);
    SecondHalf(env, n, k, if k == n && j < n then j + 1 else j, if k < n then k + 1 else k);
  }

  lemma {:induction false} SlowAfter(env: Env, n: nat, m: nat)
    requires n > 0 && Neutral(env, n) && m <= 2 * n
    ensures After(env, Slow(n), m) == if m <= n then Stage(n, m, 0) else Stage(n, n, m - n)
  {
    if m == 0 {
      assert Range(n, n) == {} && Range(0, 0) == {};
    } else {
      SlowAfter(env, n, m - 1);
      if m <= n { SlowPass(env, n, m - 1, 0); } else { SlowPass(env, n, n, m - 1 - n); }
    }
  }

  lemma StagesDiffer(n: nat, k: nat, j: nat, k': nat, j': nat)
    requires j <= n && j' <= n && (k' == k + 1 || (k' == k && j' == j + 1))
    ensures Stage(n, k, j) != Stage(n, k', j')
  {
    InRange(k, 0, k);
    InRange(k, 0, k');
    if j' == j + 1 {
      InRange(n - j', n - j, n);
      InRange(n - j', n - j', n);
    }
  }

  lemma SlowNames(n: nat)
    requires n > 0
    ensures Names(Slow(n)) == Range(0, n) && |Range(0, n)| == n
  {
    RangeSize(n);
    forall p | p in Slow(n)
      ensures p.lhs in Range(0, n)
    {
      SlowName(n, p);
    }
    forall x | x in Range(0, n)
      ensures x in Names(Slow(n))
    {
      BackNames(n - 1);
      var k: nat :| k < n && X(k) == x;
      if k == n - 1 {
        assert Read(n) in Slow(n);
      } else {
        assert x in Range(0, n - 1);
        var p :| p in Back(n - 1) && p.lhs == x;
        assert p in Slow(n);
      }
    }
  }

  lemma SlowName(n: nat, p: Pair)
    requires n > 0 && p in Slow(n)
    ensures p.lhs in Range(0, n)
  {
    BackNames(n - 1);
    ForthNames(n, n - 1);
    InRange(0, 0, n);
    InRange(n - 1, 0, n);
    if p in Back(n - 1) {
      assert p.lhs in Range(0, n - 1);
    }
  }

  lemma {:induction false} BackNames(m: nat)
    ensures forall x :: x in Range(0, m) <==> exists p :: p in Back(m) && p.lhs == x
  {
    if m > 0 {
      BackNames(m - 1);
      Grown(0, m - 1, m - 1);
      var last := Pair(X(m - 1), Ident(X(m)));
      assert last in Back(m);
      forall x
        ensures x in Range(0, m) <==> exists p :: p in Back(m) && p.lhs == x
      {
        assert x in Range(0, m) <==> x in Range(0, m - 1) || x == X(m - 1);
        if x in Range(0, m - 1) {
          var p :| p in Back(m - 1) && p.lhs == x;
          assert p in Back(m);
        }
      }
    }
  }

  lemma {:induction false} ForthNames(n: nat, m: nat)
    requires m < n
    ensures forall p :: p in Forth(n, m) ==> p.lhs in Range(0, n)
  {
    if m > 0 {
      ForthNames(n, m - 1);
      InRange(n - m, 0, n);
    }
  }

  lemma {:induction false} RangeSize(n: nat)
    ensures |Range(0, n)| == n
  {
    if n == 0 {
      assert Range(0, 0) == {};
    } else {
      RangeSize(n - 1);
      Grown(0, n - 1, n - 1);
      InRange(n - 1, 0, n - 1);
    }
  }

  /** The bound on the passes is the best possible: for every n there are assignments to n names for which
      the loop makes exactly 2n + 1. */
  method BoundIsAttained(env: Env, n: nat) returns (pairs: seq<Pair>, passes: nat)
    requires n > 0 && Neutral(env, n)
    ensures |Names(pairs)| == n && IsPassCount(env, pairs, passes) && passes == 2 * n + 1
  {
    pairs := Slow(n);
    SlowNames(n);
    var tainted, headers;
    tainted, headers, passes := Propagate(env, pairs);
    SlowPassCount(env, n, passes);
  }

  lemma SlowPassCount(env: Env, n: nat, passes: nat)
    requires n > 0 && Neutral(env, n) && 0 < passes <= 2 * n + 1
    requires After(env, Slow(n), passes) == After(env, Slow(n), passes - 1)
    ensures passes == 2 * n + 1
  {
    if passes <= 2 * n {
      SlowAfter(env, n, passes);
      SlowAfter(env, n, passes - 1);
      if passes <= n {
        StagesDiffer(n, passes - 1, 0, passes, 0);
      } else {
        StagesDiffer(n, n, passes - 1 - n, n, passes - n);
      }
    }
  }
}

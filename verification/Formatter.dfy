/**
 The format language of Logger::log: text in which `%` is a hole for the next argument and `%%` is
 the character `%`. `Tokens` is the meaning of a format, `Fill` the meaning of a format with its
 arguments; the loops of the logger are proved against them in Logger.dfy.
 */
module Formatter {
  import opened Sequences

  /** A NUL-terminated string: its characters before the terminator. */
  type CString = s: string | '\0' !in s

  /** One constructor per LogType. */
  datatype LogElement =
    | Char(c: char)
    | Integer(i: int)
    | LongInteger(li: int)
    | LongLongInteger(lli: int)
    | UnsignedInteger(u: nat)
    | UnsignedLongInteger(ul: nat)
    | UnsignedLongLongInteger(ull: nat)
    | Float(f: real)
    | Double(d: real)

  /** An argument of log stands for the elements that pushing it pushes. */
  type Argument = seq<LogElement>

  /** What a C string pointer to the characters of `s` sees of them. */
  function CStr(s: string): (t: CString)
    ensures t <= s
    ensures t == s <==> '\0' !in s
    ensures t != s ==> s[|t|] == '\0'
  {
    if s == [] then []
    else if s[0] == '\0' then []
    else
      var rest: string := CStr(s[1..]);
      assert [s[0]] + s[1..] == s;
      [s[0]] + rest
  }

  function Chars(s: string): (es: seq<LogElement>)
    ensures |es| == |s|
  {
    seq(|s|, i requires 0 <= i < |s| => Char(s[i]))
  }

  datatype Token = Literal(c: char) | Hole

  /** Read from the left: `%%` is a literal `%`, any other `%` is a hole. */
  function Tokens(s: string): seq<Token> {
    if s == [] then []
    else if s[0] != '%' then [Literal(s[0])] + Tokens(s[1..])
    else if |s| > 1 && s[1] == '%' then [Literal('%')] + Tokens(s[2..])
    else [Hole] + Tokens(s[1..])
  }

  function PrintToken(t: Token): string {
    match t
    case Literal(c) => if c == '%' then "%%" else [c]
    case Hole => "%"
  }

  function Print(ts: seq<Token>): string {
    if ts == [] then [] else PrintToken(ts[0]) + Print(ts[1..])
  }

  /** No hole stands directly before a hole or a literal `%`. */
  ghost predicate Expressible(ts: seq<Token>) {
    forall i :: 0 < i < |ts| && ts[i - 1] == Hole ==> ts[i] != Hole && ts[i] != Literal('%')
  }

  lemma PrintCons(t: Token, ts: seq<Token>)
    ensures Print([t] + ts) == PrintToken(t) + Print(ts)
  {
    assert ([t] + ts)[1..] == ts;
  }

  /** Printing the tokens of a format gives the format back. */
  lemma {:induction false} PrintTokens(s: string)
    ensures Print(Tokens(s)) == s
    decreases |s|
  {
    if s == [] {
    } else if s[0] != '%' {
      PrintTokens(s[1..]);
      PrintCons(Literal(s[0]), Tokens(s[1..]));
    } else if |s| > 1 && s[1] == '%' {
      PrintTokens(s[2..]);
      PrintCons(Literal('%'), Tokens(s[2..]));
      assert s == "%%" + s[2..];
    } else {
      PrintTokens(s[1..]);
      PrintCons(Hole, Tokens(s[1..]));
    }
  }

  /** The first token of a format tells its first character. */
  lemma FirstToken(s: string)
    requires s != []
    ensures Tokens(s) != []
    ensures Tokens(s)[0] in {Hole, Literal('%')} <==> s[0] == '%'
  {
  }

  lemma {:induction false} TokensExpressible(s: string)
    ensures Expressible(Tokens(s))
    decreases |s|
  {
    if s == [] {
    } else if s[0] != '%' {
      TokensExpressible(s[1..]);
    } else if |s| > 1 && s[1] == '%' {
      TokensExpressible(s[2..]);
    } else {
      TokensExpressible(s[1..]);
      if |s| > 1 {
        FirstToken(s[1..]);
      }
    }
  }

  lemma {:induction false} TokensPrint(ts: seq<Token>)
    requires Expressible(ts)
    ensures Tokens(Print(ts)) == ts
  {
    if ts != [] {
      var rest := ts[1..];
      assert Expressible(rest) by {
        forall i | 0 < i < |rest| && rest[i - 1] == Hole ensures rest[i] != Hole && rest[i] != Literal('%') {
          assert ts[(i + 1) - 1] == Hole;
        }
      }
      TokensPrint(rest);
      var p := Print(rest);
      match ts[0] {
        case Literal(c) =>
          if c == '%' {
            assert ("%%" + p)[2..] == p;
          } else {
            assert ([c] + p)[1..] == p;
          }
        case Hole =>
          assert ("%" + p)[1..] == p;
          if rest != [] {
            assert ts[1 - 1] == Hole && ts[1] == rest[0];
            assert p[0] != '%';
          }
      }
    }
  }

  /** Printing loses nothing exactly on the expressible sequences. */
  lemma PrintedMeansItself(ts: seq<Token>)
    ensures Tokens(Print(ts)) == ts <==> Expressible(ts)
  {
    if Expressible(ts) {
      TokensPrint(ts);
    }
    TokensExpressible(Print(ts));
  }

  /** The image of the tokeniser: a token sequence is what some format means iff it is expressible. */
  lemma ExpressibleIffImage(ts: seq<Token>)
    ensures (exists s :: Tokens(s) == ts) <==> Expressible(ts)
  {
    PrintedMeansItself(ts);
    forall s | Tokens(s) == ts ensures Expressible(ts) {
      TokensExpressible(s);
    }
  }

  // ---------------------------------------------------------------------------------------------
  // Runs of `%`, and formats put side by side.

  function Percents(m: nat): (s: string)
    ensures |s| == m
  {
    seq(m, i => '%')
  }

  /** A run of m `%`: m / 2 literals and then m % 2 holes. */
  function RunTokens(m: nat): (ts: seq<Token>)
    ensures |ts| == m / 2 + m % 2
  {
    seq(m / 2, i => Literal('%')) + seq(m % 2, i => Hole)
  }

  lemma TokensOfPercent(s: string)
    ensures Tokens("%%" + s) == [Literal('%')] + Tokens(s)
    ensures s == [] || s[0] != '%' ==> Tokens("%" + s) == [Hole] + Tokens(s)
  {
    assert ("%%" + s)[2..] == s;
    assert ("%" + s)[1..] == s;
  }

  /** The law of runs, with any text behind that does not start with `%`. */
  lemma {:induction false} TokensOfRun(m: nat, s: string)
    requires s == [] || s[0] != '%'
    ensures Tokens(Percents(m) + s) == RunTokens(m) + Tokens(s)
    decreases m
  {
    hide Tokens;
    if m == 0 {
      assert Percents(m) + s == s;
    } else if m == 1 {
      assert Percents(1) == "%" && RunTokens(1) == [Hole];
      TokensOfPercent(s);
    } else {
      var rest := Percents(m - 2) + s;
      assert Percents(m) + s == "%%" + rest;
      TokensOfPercent(rest);
      TokensOfRun(m - 2, s);
      assert RunTokens(m) == [Literal('%')] + RunTokens(m - 2);
      Associative([Literal('%')], RunTokens(m - 2), Tokens(s));
    }
  }

  lemma {:induction false} PrintConcat(a: seq<Token>, b: seq<Token>)
    ensures Print(a + b) == Print(a) + Print(b)
  {
    hide PrintToken;
    if a == [] {
      assert a + b == b;
    } else {
      PrintConcat(a[1..], b);
      assert a + b == [a[0]] + (a[1..] + b);
      PrintCons(a[0], a[1..] + b);
      Associative(PrintToken(a[0]), Print(a[1..]), Print(b));
    }
  }

  predicate EndsInHole(ts: seq<Token>) {
    ts != [] && ts[|ts| - 1] == Hole
  }

  lemma ExpressibleConcat(a: seq<Token>, b: seq<Token>)
    requires Expressible(a) && Expressible(b)
    ensures Expressible(a + b) <==> !(EndsInHole(a) && b != [] && b[0] in {Hole, Literal('%')})
  {
    var ts := a + b;
    if EndsInHole(a) && b != [] && b[0] in {Hole, Literal('%')} {
      assert ts[|a| - 1] == Hole && ts[|a|] == b[0];
    } else {
      forall i | 0 < i < |ts| && ts[i - 1] == Hole ensures ts[i] != Hole && ts[i] != Literal('%') {
        if i < |a| {
          assert a[i - 1] == Hole;
        } else if i > |a| {
          assert b[i - |a| - 1] == Hole;
        }
      }
    }
  }

  /** Formats side by side mean their meanings side by side, unless a hole meets a `%`. */
  lemma JoinTokens(a: string, b: string)
    ensures Tokens(a + b) == Tokens(a) + Tokens(b) <==>
            !(EndsInHole(Tokens(a)) && b != [] && b[0] == '%')
  {
    var ta, tb := Tokens(a), Tokens(b);
    assert Print(ta + tb) == a + b by {
      PrintTokens(a);
      PrintTokens(b);
      PrintConcat(ta, tb);
    }
    PrintedMeansItself(ta + tb);
    TokensExpressible(a);
    TokensExpressible(b);
    ExpressibleConcat(ta, tb);
    if b != [] {
      FirstToken(b);
    }
  }

  /** Number of `%` at the end of a text. */
  function TrailingPercents(s: string): (k: nat)
    ensures k <= |s| && s[|s| - k..] == Percents(k)
    ensures k < |s| ==> s[|s| - k - 1] != '%'
  {
    if s == [] || s[|s| - 1] != '%' then 0
    else
      var k := 1 + TrailingPercents(s[..|s| - 1]);
      assert s[|s| - k..] == s[..|s| - 1][|s| - k..] + ['%'];
      k
  }

  lemma HolePrintsPercent(ts: seq<Token>)
    requires EndsInHole(ts)
    ensures Print(ts) != [] && Print(ts)[|Print(ts)| - 1] == '%'
  {
    var k := |ts| - 1;
    assert ts == ts[..k] + [Hole];
    PrintConcat(ts[..k], [Hole]);
    PrintCons(Hole, []);
  }

  lemma RunEnd(m: nat)
    ensures EndsInHole(RunTokens(m)) <==> m % 2 == 1
  {
  }

  lemma EndsConcat(a: seq<Token>, b: seq<Token>)
    ensures EndsInHole(a + b) <==> if b == [] then EndsInHole(a) else EndsInHole(b)
  {
    if b == [] {
      assert a + b == a;
    }
  }

  lemma TextEndsNoHole(front: string)
    requires front == [] || front[|front| - 1] != '%'
    ensures !EndsInHole(Tokens(front))
  {
    hide Tokens, Print;
    PrintTokens(front);
    if EndsInHole(Tokens(front)) {
      HolePrintsPercent(Tokens(front));
    }
  }

  lemma TokensOfPercents(t: nat)
    ensures Tokens(Percents(t)) == RunTokens(t)
  {
    assert Percents(t) + [] == Percents(t);
    assert Tokens([]) == [];
    hide Tokens, Percents, RunTokens;
    TokensOfRun(t, []);
  }

  lemma TokensBeforeRun(front: string, t: nat)
    requires front == [] || front[|front| - 1] != '%'
    ensures Tokens(front + Percents(t)) == Tokens(front) + RunTokens(t)
    ensures !EndsInHole(Tokens(front))
  {
    hide Tokens, RunTokens, EndsInHole, Percents;
    TextEndsNoHole(front);
    JoinTokens(front, Percents(t));
    TokensOfPercents(t);
  }

  /** A format ends in a hole exactly when it ends in an odd run of `%`. */
  lemma {:induction false} EndsInOddRun(a: string)
    ensures EndsInHole(Tokens(a)) <==> TrailingPercents(a) % 2 == 1
  {
    var t := TrailingPercents(a);
    var front := a[..|a| - t];
    assert a == front + Percents(t);
    TokensBeforeRun(front, t);
    RunEnd(t);
    EndsConcat(Tokens(front), RunTokens(t));
  }

  // ---------------------------------------------------------------------------------------------
  // Formats with arguments.

  function Holes(ts: seq<Token>): (n: nat)
    ensures n <= |ts|
  {
    if ts == [] then 0 else Holes(ts[..|ts| - 1]) + if ts[|ts| - 1] == Hole then 1 else 0
  }

  lemma {:induction false} HolesConcat(a: seq<Token>, b: seq<Token>)
    ensures Holes(a + b) == Holes(a) + Holes(b)
    decreases |b|
  {
    if b == [] {
      assert a + b == a;
    } else {
      HolesConcat(a, b[..|b| - 1]);
      assert (a + b)[..|a + b| - 1] == a + b[..|b| - 1];
    }
  }

  lemma HolesSnoc(ts: seq<Token>, t: Token)
    ensures Holes(ts + [t]) == Holes(ts) + if t == Hole then 1 else 0
  {
    assert (ts + [t])[..|ts|] == ts;
  }

  /** What one token contributes, when `before` holes precede it. */
  function Piece(t: Token, before: nat, args: seq<Argument>): seq<LogElement>
    requires t == Hole ==> before < |args|
  {
    match t
    case Literal(c) => [Char(c)]
    case Hole => args[before]
  }

  /** The rendering: the n-th hole is the n-th argument, everything else is itself. */
  function Fill(ts: seq<Token>, args: seq<Argument>): seq<LogElement>
    requires Holes(ts) <= |args|
  {
    if ts == [] then []
    else
      var k := |ts| - 1;
      Fill(ts[..k], args) + Piece(ts[k], Holes(ts[..k]), args)
  }

  lemma FillOne(ts: seq<Token>, t: Token, args: seq<Argument>)
    requires Holes(ts + [t]) <= |args|
    ensures Holes(ts + [t]) == Holes(ts) + if t == Hole then 1 else 0
    ensures Fill(ts + [t], args) == Fill(ts, args) + Piece(t, Holes(ts), args)
  {
    assert (ts + [t])[..|ts|] == ts;
  }

  lemma PieceShift(t: Token, before: nat, xs: seq<Argument>, ys: seq<Argument>)
    requires t == Hole ==> before < |ys|
    ensures Piece(t, |xs| + before, xs + ys) == Piece(t, before, ys)
  {
  }

  lemma FillConcatStep(a: seq<Token>, b: seq<Token>, t: Token, xs: seq<Argument>, ys: seq<Argument>)
    requires Holes(a) == |xs| && Holes(b + [t]) <= |ys| && Holes(b) <= |ys|
    requires Holes((a + b) + [t]) <= |xs + ys| && Holes(a + b) == |xs| + Holes(b)
    requires Fill(a + b, xs + ys) == Fill(a, xs) + Fill(b, ys)
    ensures Fill((a + b) + [t], xs + ys) == Fill(a, xs) + Fill(b + [t], ys)
  {
    hide Fill, Holes, Piece;
    FillOne(b, t, ys);
    FillOne(a + b, t, xs + ys);
    PieceShift(t, Holes(b), xs, ys);
    Associative(Fill(a, xs), Fill(b, ys), Piece(t, Holes(b), ys));
  }

  /** The arguments of two balanced formats go to the holes of each. */
  lemma {:induction false} FillConcat(a: seq<Token>, b: seq<Token>, xs: seq<Argument>, ys: seq<Argument>)
    requires Holes(a) == |xs| && Holes(b) <= |ys|
    ensures Holes(a + b) <= |xs + ys|
    ensures Fill(a + b, xs + ys) == Fill(a, xs) + Fill(b, ys)
    decreases |b|
  {
    hide Piece;
    HolesConcat(a, b);
    if b == [] {
      assert a + b == a;
      FillMore(a, xs, ys);
    } else {
      var k := |b| - 1;
      var c, t := b[..k], b[k];
      FillConcat(a, c, xs, ys);
      HolesConcat(a, c);
      assert b == c + [t];
      Associative(a, c, [t]);
      FillConcatStep(a, c, t, xs, ys);
    }
  }

  /** Surplus arguments do not change a rendering. */
  lemma {:induction false} FillMore(ts: seq<Token>, xs: seq<Argument>, ys: seq<Argument>)
    requires Holes(ts) <= |xs|
    ensures Fill(ts, xs + ys) == Fill(ts, xs)
    decreases |ts|
  {
    if ts != [] {
      FillMore(ts[..|ts| - 1], xs, ys);
    }
  }

  /** The tokens before the first hole for which `n` arguments leave nothing. */
  function Within(ts: seq<Token>, n: nat): (r: seq<Token>)
    ensures r <= ts && Holes(r) <= n
    ensures r == ts <==> Holes(ts) <= n
    ensures r != ts ==> ts[|r|] == Hole && Holes(r) == n
  {
    if ts == [] then []
    else
      var k := |ts| - 1;
      var r := Within(ts[..k], n);
      HolesMonotone(ts, k);
      if |r| == k && (ts[k] != Hole || Holes(ts[..k]) < n) then ts else r
  }

  lemma {:induction false} HolesMonotone(ts: seq<Token>, k: nat)
    requires k <= |ts|
    ensures Holes(ts[..k]) <= Holes(ts)
  {
    HolesConcat(ts[..k], ts[k..]);
    assert ts == ts[..k] + ts[k..];
  }

  datatype Verdict = Completed | MissingArguments | ExtraArguments

  /** Success means as many holes as arguments; the two failures are the two ways to miss that. */
  function Judge(format: string, args: seq<Argument>): Verdict {
    var n := Holes(Tokens(format));
    if n == |args| then Completed else if n > |args| then MissingArguments else ExtraArguments
  }

  /** What a call pushes before it completes or stops: the rendering up to the first surplus hole. */
  function Pushed(format: string, args: seq<Argument>): seq<LogElement> {
    Fill(Within(Tokens(format), |args|), args)
  }

  /** A prefix that stops at a hole with all `n` holes used is as long as any with at most `n`. */
  lemma NoLonger(ts: seq<Token>, n: nat, r: seq<Token>, w: seq<Token>)
    requires r <= ts && w <= ts && Holes(w) <= n
    requires r != ts ==> ts[|r|] == Hole && Holes(r) == n
    ensures |w| <= |r|
  {
    hide Holes;
    if |r| < |w| {
      HolesSnoc(r, Hole);
      assert w[..|r| + 1] == r + [Hole];
      HolesMonotone(w, |r| + 1);
    }
  }

  lemma WithinUnique(ts: seq<Token>, n: nat, r: seq<Token>)
    requires r <= ts && Holes(r) <= n
    requires r != ts ==> ts[|r|] == Hole && Holes(r) == n
    ensures r == Within(ts, n)
  {
    NoLonger(ts, n, r, Within(ts, n));
    NoLonger(ts, n, Within(ts, n), r);
  }

  lemma HolesCons(t: Token, ts: seq<Token>)
    ensures Holes([t] + ts) == Holes(ts) + if t == Hole then 1 else 0
  {
    HolesConcat([t], ts);
    assert [t][..0] == [];
  }

  lemma WithinCons(t: Token, ts: seq<Token>, n: nat)
    requires t == Hole ==> n > 0
    ensures Within([t] + ts, n) == [t] + Within(ts, if t == Hole then n - 1 else n)
  {
    var w := Within(ts, if t == Hole then n - 1 else n);
    HolesCons(t, ts);
    HolesCons(t, w);
    if w != ts {
      assert ([t] + ts)[|w| + 1] == ts[|w|];
    }
    WithinUnique([t] + ts, n, [t] + w);
  }

  lemma FillSingle(t: Token, args: seq<Argument>)
    requires t == Hole ==> args != []
    ensures t == Hole ==> Holes([t]) == 1 && Fill([t], [args[0]]) == args[0]
    ensures t != Hole ==> Holes([t]) == 0 && Fill([t], []) == [Char(t.c)]
  {
    assert [] + [t] == [t];
    HolesSnoc([], t);
    if t == Hole {
      FillOne([], t, [args[0]]);
    } else {
      FillOne([], t, []);
    }
  }

  /** The first token of a rendering. */
  lemma FillCons(t: Token, ts: seq<Token>, args: seq<Argument>)
    requires t == Hole ==> args != []
    requires Holes(ts) <= |args| - if t == Hole then 1 else 0
    ensures Holes([t] + ts) <= |args|
    ensures Fill([t] + ts, args) ==
            if t == Hole then args[0] + Fill(ts, args[1..]) else [Char(t.c)] + Fill(ts, args)
  {
    hide Fill, Holes;
    HolesCons(t, ts);
    FillSingle(t, args);
    if t == Hole {
      FillConcat([t], ts, [args[0]], args[1..]);
      assert [args[0]] + args[1..] == args;
    } else {
      FillConcat([t], ts, [], args);
      assert [] + args == args;
    }
  }

  /** Scanning one literal. */
  lemma ScanLiteral(format: string, rest: string, c: char, args: seq<Argument>)
    requires Tokens(format) == [Literal(c)] + Tokens(rest)
    ensures Judge(format, args) == Judge(rest, args)
    ensures Pushed(format, args) == [Char(c)] + Pushed(rest, args)
  {
    hide Tokens, Holes, Fill, Within;
    HolesCons(Literal(c), Tokens(rest));
    WithinCons(Literal(c), Tokens(rest), |args|);
    FillCons(Literal(c), Within(Tokens(rest), |args|), args);
  }

  /** Scanning one hole, with an argument for it. */
  lemma ScanHole(format: string, rest: string, args: seq<Argument>)
    requires Tokens(format) == [Hole] + Tokens(rest) && args != []
    ensures Judge(format, args) == Judge(rest, args[1..])
    ensures Pushed(format, args) == args[0] + Pushed(rest, args[1..])
  {
    hide Tokens, Holes, Fill, Within;
    HolesCons(Hole, Tokens(rest));
    WithinCons(Hole, Tokens(rest), |args|);
    FillCons(Hole, Within(Tokens(rest), |args| - 1), args);
  }

  /** Scanning one hole with no argument left. */
  lemma ScanSurplus(format: string, rest: string)
    requires Tokens(format) == [Hole] + Tokens(rest)
    ensures Judge(format, []) == MissingArguments && Pushed(format, []) == []
  {
    HolesCons(Hole, Tokens(rest));
    WithinUnique(Tokens(format), 0, []);
  }

  // ---------------------------------------------------------------------------------------------
  // Laws of rendering.

  /** Two calls in one: rendering `a + b` with both lists of arguments is rendering one after the other. */
  ghost predicate Splits(a: string, b: string, xs: seq<Argument>, ys: seq<Argument>) {
    Judge(a + b, xs + ys) == Completed && Pushed(a + b, xs + ys) == Pushed(a, xs) + Pushed(b, ys)
  }

  ghost predicate AlwaysSplits(a: string, b: string) {
    forall xs, ys | Judge(a, xs) == Completed && Judge(b, ys) == Completed :: Splits(a, b, xs, ys)
  }

  /** A rendering with integers for arguments shows which tokens were holes. */
  function Trace(ts: seq<Token>): (es: seq<LogElement>)
    ensures |es| == |ts|
  {
    seq(|ts|, i requires 0 <= i < |ts| => if ts[i] == Hole then Integer(0) else Char(ts[i].c))
  }

  function Zeros(n: nat): (args: seq<Argument>)
    ensures |args| == n
  {
    seq(n, i => [Integer(0)])
  }

  lemma {:induction false} FillZeros(ts: seq<Token>, n: nat)
    requires Holes(ts) <= n
    ensures Fill(ts, Zeros(n)) == Trace(ts)
    decreases |ts|
  {
    if ts != [] {
      FillZeros(ts[..|ts| - 1], n);
    }
  }

  lemma PushedZeros(s: string, n: nat)
    requires Holes(Tokens(s)) <= n
    ensures Pushed(s, Zeros(n)) == Trace(Tokens(s))
  {
    FillZeros(Tokens(s), n);
  }

  lemma TraceInjective(a: seq<Token>, b: seq<Token>)
    requires Trace(a) == Trace(b)
    ensures a == b
  {
    forall i | 0 <= i < |a| ensures a[i] == b[i] {
      assert Trace(a)[i] == Trace(b)[i];
    }
  }

  lemma JoinedSplits(a: string, b: string, xs: seq<Argument>, ys: seq<Argument>)
    requires Tokens(a + b) == Tokens(a) + Tokens(b)
    requires Judge(a, xs) == Completed && Judge(b, ys) == Completed
    ensures Splits(a, b, xs, ys)
  {
    HolesConcat(Tokens(a), Tokens(b));
    FillConcat(Tokens(a), Tokens(b), xs, ys);
  }

  lemma TraceConcat(a: seq<Token>, b: seq<Token>)
    ensures Trace(a + b) == Trace(a) + Trace(b)
  {
  }

  lemma SplitTrace(a: string, b: string, n: nat, m: nat)
    requires n == Holes(Tokens(a)) && m == Holes(Tokens(b)) && Splits(a, b, Zeros(n), Zeros(m))
    ensures Trace(Tokens(a + b)) == Trace(Tokens(a) + Tokens(b))
  {
    hide Tokens, Holes, Pushed, Trace, Zeros;
    TraceConcat(Tokens(a), Tokens(b));
    ZerosConcat(n, m);
    PushedZeros(a + b, n + m);
    PushedZeros(a, n);
    PushedZeros(b, m);
  }

  lemma ZerosConcat(n: nat, m: nat)
    ensures Zeros(n) + Zeros(m) == Zeros(n + m)
  {
  }

  lemma SplitJoins(a: string, b: string, n: nat, m: nat)
    requires n == Holes(Tokens(a)) && m == Holes(Tokens(b)) && Splits(a, b, Zeros(n), Zeros(m))
    ensures Tokens(a + b) == Tokens(a) + Tokens(b)
  {
    SplitTrace(a, b, n, m);
    TraceInjective(Tokens(a + b), Tokens(a) + Tokens(b));
  }

  /**
   The concatenation law. Balanced formats a and b can be logged in one call, whatever their
   arguments, exactly when it is not the case that a ends in an odd run of `%` and b starts with `%`.
   */
  lemma ConcatLaw(a: string, b: string)
    ensures AlwaysSplits(a, b) <==> !(TrailingPercents(a) % 2 == 1 && b != [] && b[0] == '%')
  {
    JoinTokens(a, b);
    EndsInOddRun(a);
    if Tokens(a + b) == Tokens(a) + Tokens(b) {
      forall xs, ys | Judge(a, xs) == Completed && Judge(b, ys) == Completed ensures Splits(a, b, xs, ys) {
        JoinedSplits(a, b, xs, ys);
      }
    } else {
      var xs, ys := Zeros(Holes(Tokens(a))), Zeros(Holes(Tokens(b)));
      if Splits(a, b, xs, ys) {
        SplitJoins(a, b, |xs|, |ys|);
      }
      assert Judge(a, xs) == Completed && Judge(b, ys) == Completed;
    }
  }

  /** A text with every `%` doubled. */
  function Doubled(s: string): (d: string)
    ensures '\0' in d <==> '\0' in s
  {
    if s == [] then [] else PrintToken(Literal(s[0])) + Doubled(s[1..])
  }

  function Literals(s: string): (ts: seq<Token>)
    ensures |ts| == |s|
  {
    seq(|s|, i requires 0 <= i < |s| => Literal(s[i]))
  }

  lemma {:induction false} PrintLiterals(s: string)
    ensures Print(Literals(s)) == Doubled(s)
  {
    if s != [] {
      PrintLiterals(s[1..]);
      assert Literals(s) == [Literal(s[0])] + Literals(s[1..]);
      PrintCons(Literal(s[0]), Literals(s[1..]));
    }
  }

  lemma {:induction false} FillLiterals(s: string)
    ensures Holes(Literals(s)) == 0 && Fill(Literals(s), []) == Chars(s)
    decreases |s|
  {
    if s != [] {
      var k := |s| - 1;
      FillLiterals(s[..k]);
      assert Literals(s)[..k] == Literals(s[..k]);
      assert Chars(s) == Chars(s[..k]) + [Char(s[k])];
    }
  }

  /** Escaping: the doubled form of any text, logged without arguments, is pushed as that text. */
  lemma DoubledIsLiteral(s: string)
    ensures Judge(Doubled(s), []) == Completed && Pushed(Doubled(s), []) == Chars(s)
  {
    PrintLiterals(s);
    TokensPrint(Literals(s));
    FillLiterals(s);
  }

  lemma LiteralsAreExpressible(a: string, b: string)
    requires b == [] || b[0] != '%'
    ensures Expressible(Literals(a) + [Hole] + Literals(b))
  {
  }

  lemma PrintHoleInText(a: string, b: string)
    ensures Print(Literals(a) + [Hole] + Literals(b)) == Doubled(a) + "%" + Doubled(b)
  {
    hide Literals, Doubled;
    PrintLiterals(a);
    PrintLiterals(b);
    PrintConcat(Literals(a) + [Hole], Literals(b));
    PrintConcat(Literals(a), [Hole]);
    PrintCons(Hole, []);
  }

  /** What is logged at a hole with text before and behind it is pushed between the two. */
  lemma HoleInText(a: string, b: string, x: Argument)
    requires b == [] || b[0] != '%'
    ensures Judge(Doubled(a) + "%" + Doubled(b), [x]) == Completed
    ensures Pushed(Doubled(a) + "%" + Doubled(b), [x]) == Chars(a) + x + Chars(b)
  {
    hide Tokens, Print, Literals, Doubled, Holes, Fill, Chars, Expressible;
    var ta, tb := Literals(a), Literals(b);
    LiteralsAreExpressible(a, b);
    PrintHoleInText(a, b);
    TokensPrint(ta + [Hole] + tb);
    FillLiterals(a);
    FillLiterals(b);
    FillSingle(Hole, [x]);
    HolesConcat(ta, [Hole]);
    HolesConcat(ta + [Hole], tb);
    FillConcat(ta, [Hole], [], [x]);
    FillConcat(ta + [Hole], tb, [x], []);
    assert [] + [x] == [x] && [x] + [] == [x];
  }
}
